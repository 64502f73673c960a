/** The keyframe requests of the example subscriber (p2p_peer.c) as they really race: the
    receiving thread asks under its own lock, the main loop's watchdog and timer without one,
    and both read and write last_idr_req_us and waiting_for_keyframe. Here every single access
    to one of the two is a step of its own, and the steps interleave at will. */
module RequestRace {
  import opened Machine
  import opened P = PeerClient

  datatype Thread = ReceivingThread | MainThread

  /** How far a thread has come in request_idr_if_needed: the clock reading it works with, the
      last request it has seen, and whether it found itself waiting. */
  datatype Asking =
    | Idle
    | HasRead(now: u64)
    | HasLooked(now: u64, seen: u64)
    | HasTested(now: u64, seen: u64, retry: bool)
    | HasStamped

  /** log holds the requests in the order in which they have set last_idr_req_us. */
  datatype State = State(waiting: bool, last: u64, receiver: Asking, main: Asking,
                         turnUs: u64, sawWaiting: bool, expired: bool, log: seq<Request>)

  const QUIET: State := State(false, 0, Idle, Idle, 0, false, false, [])

  /** One access to the clock or to a shared field. */
  datatype Event =
    | ReadsClock(t: Thread, now: u64)
    | Looks(t: Thread)
    | Tests(t: Thread)
    | Stamps(t: Thread)
    | Marks(t: Thread)
    | KeyframeCame
    | TurnStarts(now: u64)
    | TimerLooks
    | TimerTests
    | TimerResets

  // ---------- Specification ----------

  function Of(s: State, t: Thread): Asking {
    if t == ReceivingThread then s.receiver else s.main
  }

  function Set(s: State, t: Thread, a: Asking): State {
    if t == ReceivingThread then s.(receiver := a) else s.(main := a)
  }

  function Gap(retry: bool): int {
    if retry then IDR_REQ_RETRY_US else IDR_REQ_THROTTLE_US
  }

  /** A step that a thread has not come to yet has no effect. */
  function Next(s: State, e: Event): State {
    match e
    case ReadsClock(t, now) => if Of(s, t).Idle? then Set(s, t, HasRead(now)) else s
    case Looks(t) => if Of(s, t).HasRead? then Set(s, t, HasLooked(Of(s, t).now, s.last)) else s
    case Tests(t) =>
      var a := Of(s, t);
      if !a.HasLooked? then s
      else if Sub64(a.now, a.seen) >= Gap(s.waiting) then Set(s, t, HasTested(a.now, a.seen, s.waiting))
      else Set(s, t, Idle)
    case Stamps(t) =>
      var a := Of(s, t);
      if !a.HasTested? then s
      else Set(s.(last := a.now, log := s.log + [Request(a.now, a.retry)]), t, if a.retry then Idle else HasStamped)
    case Marks(t) => if Of(s, t).HasStamped? then Set(s.(waiting := true), t, Idle) else s
    case KeyframeCame => s.(waiting := false)
    case TurnStarts(now) => s.(turnUs := now)
    case TimerLooks => s.(sawWaiting := s.waiting)
    case TimerTests => s.(expired := s.sawWaiting && Sub64(s.turnUs, s.last) >= IDR_WAIT_TIMEOUT_US)
    case TimerResets => if s.expired then s.(waiting := false, expired := false) else s
  }

  function Run(evs: seq<Event>): State {
    if evs == [] then QUIET else Next(Run(evs[..|evs| - 1]), evs[|evs| - 1])
  }

  /** Without interference the five steps are request_idr_if_needed. */
  lemma {:induction false} AloneItIsOneAsk(s: State, t: Thread, now: u64, c: Client)
    requires Of(s, t).Idle? && c.waiting == s.waiting && c.lastIdrReqUs == s.last
    ensures var r := Next(Next(Next(Next(Next(s, ReadsClock(t, now)), Looks(t)), Tests(t)), Stamps(t)), Marks(t));
            var (c1, requests) := Ask(c, now);
            r == s.(waiting := c1.waiting, last := c1.lastIdrReqUs, log := s.log + requests)
  {
    var s1 := Next(Next(s, ReadsClock(t, now)), Looks(t));
    assert s1 == Set(s, t, HasLooked(now, s.last));
    AskFromTheTest(s1, t, c, now);
    assert Set(s1, t, Idle) == s;
  }

  /** The same from the test on. */
  lemma {:induction false} AskFromTheTest(s: State, t: Thread, c: Client, now: u64)
    requires Of(s, t) == HasLooked(now, s.last) && c.waiting == s.waiting && c.lastIdrReqUs == s.last
    ensures var (r, (c1, requests)) := (Next(Next(Next(s, Tests(t)), Stamps(t)), Marks(t)), Ask(c, now));
            r == Set(s, t, Idle).(waiting := c1.waiting, last := c1.lastIdrReqUs, log := s.log + requests)
  {
    assert s.log + [] == s.log;
  }

  // ---------- The clock ----------

  function Latest(evs: seq<Event>): u64 {
    if evs == [] then 0
    else
      match evs[|evs| - 1]
      case ReadsClock(_, now) => now
      case TurnStarts(now) => now
      case _ => Latest(evs[..|evs| - 1])
  }

  /** The clock does not go back over event e. */
  predicate InTime(t: u64, e: Event) {
    (e.ReadsClock? || e.TurnStarts?) ==> t <= e.now
  }

  predicate ClockRuns(evs: seq<Event>) {
    evs != [] ==> ClockRuns(evs[..|evs| - 1]) && InTime(Latest(evs[..|evs| - 1]), evs[|evs| - 1])
  }

  // ---------- What every run keeps ----------

  /** A thread works with readings of the past, and has tested what it is about to do. */
  predicate Sound(a: Asking, t: u64) {
    match a
    case Idle => true
    case HasRead(now) => now <= t
    case HasLooked(now, seen) => now <= t && seen <= t
    case HasTested(now, seen, retry) => now <= t && seen <= t && Sub64(now, seen) >= Gap(retry)
    case HasStamped => true
  }

  /** last is the time of the last request, if there was one. */
  predicate Kept(s: State, t: u64) {
    && s.last == (if s.log == [] then 0 else s.log[|s.log| - 1].at)
    && s.last <= t && s.turnUs <= t && Sound(s.receiver, t) && Sound(s.main, t)
    && (s.log == [] ==> SeenNothing(s.receiver) && SeenNothing(s.main))
  }

  predicate SeenNothing(a: Asking) {
    a.HasLooked? || a.HasTested? ==> a.seen == 0
  }

  lemma {:induction false} KeptLater(s: State, t: u64, t': u64)
    requires Kept(s, t) && t <= t'
    ensures Kept(s, t')
  {}

  lemma {:induction false} SetKeeps(s: State, t: u64, th: Thread, a: Asking)
    requires Kept(s, t) && Sound(a, t) && (s.log == [] ==> SeenNothing(a))
    ensures Kept(Set(s, th, a), t)
  {}

  lemma {:induction false} StampKeeps(s: State, t: u64, th: Thread)
    requires Kept(s, t)
    ensures Kept(Next(s, Stamps(th)), t)
  {
    var a := Of(s, th);
    if a.HasTested? {
      var s1 := s.(last := a.now, log := s.log + [Request(a.now, a.retry)]);
      assert s1.log[|s1.log| - 1] == Request(a.now, a.retry);
      SetKeeps(s1, t, th, if a.retry then Idle else HasStamped);
    }
  }

  lemma {:induction false} LookKeeps(s: State, t: u64, th: Thread)
    requires Kept(s, t)
    ensures Kept(Next(s, Looks(th)), t)
  {
    if Of(s, th).HasRead? {
      SetKeeps(s, t, th, HasLooked(Of(s, th).now, s.last));
    }
  }

  lemma {:induction false} TestKeeps(s: State, t: u64, th: Thread)
    requires Kept(s, t)
    ensures Kept(Next(s, Tests(th)), t)
  {
    if Of(s, th).HasLooked? {
      SetKeeps(s, t, th, Of(Next(s, Tests(th)), th));
    }
  }

  lemma {:induction false} StepKeeps(s: State, t: u64, e: Event)
    requires Kept(s, t) && InTime(t, e)
    ensures Kept(Next(s, e), if e.ReadsClock? || e.TurnStarts? then e.now else t)
  {
    match e
    case ReadsClock(th, now) =>
      KeptLater(s, t, now);
      SetKeeps(s, now, th, HasRead(now));
    case Looks(th) =>
      LookKeeps(s, t, th);
    case Tests(th) =>
      TestKeeps(s, t, th);
    case Stamps(th) =>
      StampKeeps(s, t, th);
    case Marks(th) =>
      SetKeeps(s.(waiting := true), t, th, Idle);
    case KeyframeCame =>
    case TurnStarts(now) =>
      KeptLater(s, t, now);
    case TimerLooks =>
    case TimerTests =>
    case TimerResets =>
  }

  lemma {:induction false} RunKeeps(evs: seq<Event>)
    requires ClockRuns(evs)
    ensures Kept(Run(evs), Latest(evs))
  {
    if evs == [] {
    } else {
      RunKeeps(evs[..|evs| - 1]);
      StepKeeps(Run(evs[..|evs| - 1]), Latest(evs[..|evs| - 1]), evs[|evs| - 1]);
    }
  }

  // ---------- Spacing of the requests ----------

  /** Requests are 200 ms apart; a retry comes a whole second after the request before it. */
  ghost predicate WellSpaced(log: seq<Request>) {
    forall i, j :: 0 <= i < j < |log| ==> log[j].at - log[i].at >= Gap(log[j].retry)
  }

  /** The thread that stamps has been overtaken: since it has read the clock, or since it has
      looked, the other thread has made a request. */
  predicate Overtaken(s: State, t: Thread) {
    var a := Of(s, t);
    a.HasTested? && (s.last != a.seen || a.seen > a.now)
  }

  /** The stamp is to fall less than its distance behind the request made last, or before it. */
  predicate TooClose(s: State, t: Thread) {
    var a := Of(s, t);
    a.HasTested? && a.now - s.last < Gap(a.retry)
  }

  /** Some stamp of the run is overtaken by a request that is too close. */
  predicate SomeCollision(evs: seq<Event>) {
    && evs != []
    && (|| SomeCollision(evs[..|evs| - 1])
        || (&& evs[|evs| - 1].Stamps?
            && Overtaken(Run(evs[..|evs| - 1]), evs[|evs| - 1].t)
            && TooClose(Run(evs[..|evs| - 1]), evs[|evs| - 1].t)))
  }

  /** A thread that has not been overtaken keeps its distance. */
  lemma {:induction false} OnlyOvertakenComesClose(s: State, t: u64, th: Thread)
    requires Kept(s, t) && TooClose(s, th)
    ensures Overtaken(s, th) && s.log != []
  {}

  lemma {:induction false} SpacedSnoc(log: seq<Request>, r: Request)
    ensures WellSpaced(log + [r]) <==>
            WellSpaced(log) && (log != [] ==> r.at - log[|log| - 1].at >= Gap(r.retry))
  {
    var more := log + [r];
    if WellSpaced(more) {
      forall i, j | 0 <= i < j < |log| ensures log[j].at - log[i].at >= Gap(log[j].retry) {
        assert more[i] == log[i] && more[j] == log[j];
      }
      assert log != [] ==> more[|log| - 1] == log[|log| - 1] && more[|log|] == r;
    } else if WellSpaced(log) && log != [] && r.at - log[|log| - 1].at >= Gap(r.retry) {
      assert forall i :: 0 <= i < |log| - 1 ==> log[i].at <= log[|log| - 1].at;
      assert false;
    }
  }

  /** In every interleaving: the requests keep their distances if and only if no stamp is
      overtaken by a request that is too close. */
  lemma {:induction false} SpacedIffNoCollision(evs: seq<Event>)
    requires ClockRuns(evs)
    ensures WellSpaced(Run(evs).log) <==> !SomeCollision(evs)
  {
    if evs == [] {
    } else {
      var before, e := evs[..|evs| - 1], evs[|evs| - 1];
      var s := Run(before);
      SpacedIffNoCollision(before);
      RunKeeps(before);
      if e.Stamps? && Of(s, e.t).HasTested? {
        SpacedSnoc(s.log, Request(Of(s, e.t).now, Of(s, e.t).retry));
        if TooClose(s, e.t) {
          OnlyOvertakenComesClose(s, Latest(before), e.t);
        }
      }
    }
  }

  /** An ask is never disturbed while it is under way. */
  predicate AskedAlone(evs: seq<Event>) {
    evs != [] ==>
      && AskedAlone(evs[..|evs| - 1])
      && (evs[|evs| - 1].Stamps? ==> !Overtaken(Run(evs[..|evs| - 1]), evs[|evs| - 1].t))
  }

  /** In particular as long as the two threads do not ask at the same time. */
  lemma {:induction false} AskedAloneIsSpaced(evs: seq<Event>)
    requires ClockRuns(evs) && AskedAlone(evs)
    ensures WellSpaced(Run(evs).log)
  {
    NoCollisionAlone(evs);
    SpacedIffNoCollision(evs);
  }

  lemma {:induction false} NoCollisionAlone(evs: seq<Event>)
    requires AskedAlone(evs)
    ensures !SomeCollision(evs)
  {
    if evs == [] {
    } else {
      NoCollisionAlone(evs[..|evs| - 1]);
    }
  }

  // ---------- The timer ----------

  /** The request made last carries a reading of the clock past the one the turn began with. */
  predicate AskedPast(s: State) {
    s.log != [] && s.log[|s.log| - 1].at > s.turnUs
  }

  /** The timer is meant to wait five seconds from the last request. In every interleaving it
      expires exactly when it does that, or when the request made last is younger than the
      turn's reading of the clock: then the unsigned difference wraps. */
  lemma {:induction false} WhenTheTimerExpires(evs: seq<Event>)
    requires ClockRuns(evs) && Latest(evs) < TWO64 - IDR_WAIT_TIMEOUT_US
    ensures var s := Run(evs);
            Next(s, TimerTests).expired <==>
            s.sawWaiting && (AskedPast(s) || s.turnUs - s.last >= IDR_WAIT_TIMEOUT_US)
  {
    RunKeeps(evs);
  }

  // ---------- Runs in which it goes wrong ----------

  lemma {:induction false} RunSnoc(evs: seq<Event>, e: Event)
    ensures Run(evs + [e]) == Next(Run(evs), e)
    ensures ClockRuns(evs + [e]) <==> ClockRuns(evs) && InTime(Latest(evs), e)
    ensures Latest(evs + [e]) == if e.ReadsClock? || e.TurnStarts? then e.now else Latest(evs)
  {
    assert (evs + [e])[..|evs|] == evs;
  }

  /** Thread t asks from the reading of the clock to the end, undisturbed. */
  function WholeAsk(t: Thread, now: u64): seq<Event> {
    [ReadsClock(t, now)] + RestOfAsk(t)
  }

  function RestOfAsk(t: Thread): seq<Event> {
    [Looks(t), Tests(t), Stamps(t), Marks(t)]
  }

  lemma {:induction false} RestSnoc(evs: seq<Event>, t: Thread)
    ensures Run(evs + RestOfAsk(t)) == Next(Next(Next(Next(Run(evs), Looks(t)), Tests(t)), Stamps(t)), Marks(t))
    ensures ClockRuns(evs + RestOfAsk(t)) <==> ClockRuns(evs)
    ensures Latest(evs + RestOfAsk(t)) == Latest(evs)
  {
    RunSnoc(evs, Looks(t));
    RunSnoc(evs + [Looks(t)], Tests(t));
    RunSnoc(evs + [Looks(t)] + [Tests(t)], Stamps(t));
    RunSnoc(evs + [Looks(t)] + [Tests(t)] + [Stamps(t)], Marks(t));
    assert evs + RestOfAsk(t) == evs + [Looks(t)] + [Tests(t)] + [Stamps(t)] + [Marks(t)];
  }

  lemma {:induction false} AskSnoc(evs: seq<Event>, t: Thread, now: u64)
    ensures Run(evs + WholeAsk(t, now))
         == Next(Next(Next(Next(Next(Run(evs), ReadsClock(t, now)), Looks(t)), Tests(t)), Stamps(t)), Marks(t))
    ensures ClockRuns(evs + WholeAsk(t, now)) <==> ClockRuns(evs) && Latest(evs) <= now
    ensures Latest(evs + WholeAsk(t, now)) == now
  {
    RunSnoc(evs, ReadsClock(t, now));
    RestSnoc(evs + [ReadsClock(t, now)], t);
    assert evs + WholeAsk(t, now) == evs + [ReadsClock(t, now)] + RestOfAsk(t);
  }

  /** A turn begins, and its watchdog reads the clock in the same microsecond. */
  function TurnAndWatchdog(now: u64): seq<Event> {
    [TurnStarts(now)] + [ReadsClock(MainThread, now)]
  }

  lemma {:induction false} AfterTurnAndWatchdog(now: u64)
    ensures Run(TurnAndWatchdog(now)) == QUIET.(turnUs := now, main := HasRead(now))
    ensures ClockRuns(TurnAndWatchdog(now)) && Latest(TurnAndWatchdog(now)) == now
  {
    RunSnoc([], TurnStarts(now));
    RunSnoc([TurnStarts(now)], ReadsClock(MainThread, now));
    assert [] + [TurnStarts(now)] == [TurnStarts(now)];
  }

  /** A thread whose reading of the clock is five microseconds older than the last request. */
  lemma {:induction false} OvertakenAsk(s: State, t: Thread)
    requires Of(s, t) == HasRead(7000000) && s.waiting && s.last == 7000005
    ensures Next(Next(Next(Next(s, Looks(t)), Tests(t)), Stamps(t)), Marks(t))
         == Set(s.(last := 7000000, log := s.log + [Request(7000000, true)]), t, Idle)
  {
    var s1 := Next(s, Looks(t));
    assert s1 == Set(s, t, HasLooked(7000000, 7000005));
    var s2 := Next(s1, Tests(t));
    assert s2 == Set(s, t, HasTested(7000000, 7000005, true));
  }

  /** The first ask of a run, whatever the other thread has read by then. */
  lemma {:induction false} FirstAsk(evs: seq<Event>, t: Thread, now: u64)
    requires var s := Run(evs); Of(s, t).Idle? && !s.waiting && s.last == 0 && s.log == []
    requires ClockRuns(evs) && Latest(evs) <= now && now >= IDR_REQ_THROTTLE_US
    ensures Run(evs + WholeAsk(t, now)) == Run(evs).(waiting := true, last := now, log := [Request(now, false)])
    ensures ClockRuns(evs + WholeAsk(t, now)) && Latest(evs + WholeAsk(t, now)) == now
  {
    var s := Run(evs);
    AskSnoc(evs, t, now);
    var s2 := Next(Next(Next(s, ReadsClock(t, now)), Looks(t)), Tests(t));
    assert s2 == Set(s, t, HasTested(now, 0, false));
    assert [] + [Request(now, false)] == [Request(now, false)];
  }

  /** The ask of a thread that has read the clock five microseconds before the only request. */
  lemma {:induction false} SecondAsk(evs: seq<Event>, t: Thread)
    requires var s := Run(evs); Of(s, t) == HasRead(7000000) && s.waiting && s.log == [Request(7000005, false)]
    requires ClockRuns(evs) && Run(evs).last == 7000005
    ensures var r := Run(evs + RestOfAsk(t));
            && r == Set(Run(evs).(last := 7000000, log := [Request(7000005, false), Request(7000000, true)]), t, Idle)
            && ClockRuns(evs + RestOfAsk(t)) && !WellSpaced(r.log)
  {
    OvertakenAsk(Run(evs), t);
    RestSnoc(evs, t);
    var log := [Request(7000005, false)] + [Request(7000000, true)];
    assert log == [Request(7000005, false), Request(7000000, true)];
    assert log[1].at - log[0].at < Gap(log[1].retry);
  }

  lemma {:induction false} NotExpired(s: State)
    requires s.last == s.turnUs
    ensures !Next(Next(s, TimerLooks), TimerTests).expired
  {}

  /** The watchdog reads the clock; five microseconds later the receiving thread asks; then
      the watchdog's unsigned difference wraps, and it asks too, as a retry. The second request
      also hides the first from the timer, which does not expire. */
  lemma {:induction false} WatchdogIsOvertaken()
    ensures var evs := TurnAndWatchdog(7000000) + WholeAsk(ReceivingThread, 7000005) + RestOfAsk(MainThread);
            && ClockRuns(evs) && Run(evs).log == [Request(7000005, false), Request(7000000, true)]
            && !WellSpaced(Run(evs).log)
            && Run(evs).waiting && !Next(Next(Run(evs), TimerLooks), TimerTests).expired
  {
    AfterTurnAndWatchdog(7000000);
    FirstAsk(TurnAndWatchdog(7000000), ReceivingThread, 7000005);
    var evs := TurnAndWatchdog(7000000) + WholeAsk(ReceivingThread, 7000005);
    SecondAsk(evs, MainThread);
    NotExpired(Run(evs + RestOfAsk(MainThread)));
  }

  /** The same the other way round: the receiving thread's lock does not keep the main loop
      out, and it is the receiving thread that repeats the request. */
  lemma {:induction false} ReceiverIsOvertaken()
    ensures var evs := [ReadsClock(ReceivingThread, 7000000)] + WholeAsk(MainThread, 7000005)
                       + RestOfAsk(ReceivingThread);
            && ClockRuns(evs) && Run(evs).log == [Request(7000005, false), Request(7000000, true)]
            && !WellSpaced(Run(evs).log)
  {
    var e := ReadsClock(ReceivingThread, 7000000);
    RunSnoc([], e);
    assert [] + [e] == [e];
    FirstAsk([e], MainThread, 7000005);
    SecondAsk([e] + WholeAsk(MainThread, 7000005), ReceivingThread);
  }

  /** A request made since the turn has read the clock makes the timer expire at once: the
      turn's own, or one of the receiving thread. */
  lemma {:induction false} YoungRequestExpires(t: Thread)
    ensures var evs := [TurnStarts(7000000)] + WholeAsk(t, 7000001);
            && ClockRuns(evs) && Run(evs).log == [Request(7000001, false)]
            && Run(evs).waiting && Next(Next(Run(evs), TimerLooks), TimerTests).expired
  {
    RunSnoc([], TurnStarts(7000000));
    assert [] + [TurnStarts(7000000)] == [TurnStarts(7000000)];
    FirstAsk([TurnStarts(7000000)], t, 7000001);
  }

  /** An ask of a thread that looks at a request six seconds old. */
  lemma {:induction false} NextAsk(s: State, t: Thread)
    requires Of(s, t).Idle? && !s.waiting && s.last == 1000000
    ensures Next(Next(Next(Next(Next(s, ReadsClock(t, 7000001)), Looks(t)), Tests(t)), Stamps(t)), Marks(t))
         == s.(waiting := true, last := 7000001, log := s.log + [Request(7000001, false)])
  {
    var s2 := Next(Next(Next(s, ReadsClock(t, 7000001)), Looks(t)), Tests(t));
    assert s2 == Set(s, t, HasTested(7000001, 1000000, false));
  }

  lemma {:induction false} AskAgain(evs: seq<Event>, t: Thread)
    requires ClockRuns(evs) && Latest(evs) <= 7000001
    requires var s := Run(evs); Of(s, t).Idle? && !s.waiting && s.last == 1000000
    ensures var (s, evs1) := (Run(evs), evs + WholeAsk(t, 7000001));
            && Run(evs1) == s.(waiting := true, last := 7000001, log := s.log + [Request(7000001, false)])
            && ClockRuns(evs1)
  {
    AskSnoc(evs, t, 7000001);
    NextAsk(Run(evs), t);
  }

  /** The first turn's wait, six seconds old, is found expired. */
  function ExpiredWait(): seq<Event> {
    [] + WholeAsk(ReceivingThread, 1000000) + [TurnStarts(7000000)] + [TimerLooks] + [TimerTests]
  }

  lemma {:induction false} AfterExpiredWait()
    ensures ClockRuns(ExpiredWait()) && Latest(ExpiredWait()) == 7000000
    ensures Run(ExpiredWait()) == QUIET.(waiting := true, last := 1000000, turnUs := 7000000, sawWaiting := true,
                                         expired := true, log := [Request(1000000, false)])
  {
    FirstAsk([], ReceivingThread, 1000000);
    var evs := [] + WholeAsk(ReceivingThread, 1000000);
    RunSnoc(evs, TurnStarts(7000000));
    RunSnoc(evs + [TurnStarts(7000000)], TimerLooks);
    RunSnoc(evs + [TurnStarts(7000000)] + [TimerLooks], TimerTests);
  }

  /** Between test and reset a keyframe ends the old wait, and a new loss begins another: the
      reset ends the new wait, a moment old. */
  lemma {:induction false} NewWaitIsEnded()
    ensures var evs := ExpiredWait() + [KeyframeCame] + WholeAsk(ReceivingThread, 7000001);
            && ClockRuns(evs) && Run(evs).waiting && Run(evs).last == 7000001
            && !Next(Run(evs), TimerResets).waiting
  {
    AfterExpiredWait();
    RunSnoc(ExpiredWait(), KeyframeCame);
    AskAgain(ExpiredWait() + [KeyframeCame], ReceivingThread);
  }
}
