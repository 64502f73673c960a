/** Reconnection of one peer (p2p_adapter.c): what closing, finishing a handshake and the
    engine's passes do to the peer's state and restart flags, which calls they make, and when
    repeated QUIC failures are escalated to an ICE restart. */
module Reconnect {
  import opened Machine
  import opened PeerStates

  const MAX_QUIC_FAILURES: int := 3
  const IDLE_TIMEOUT_US: int := 60 * 1000000

  datatype IceState = IceGathering | IceConnecting | IceConnected | IceCompleted | IceFailed | IceDisconnected

  /** queued counts the entries of the frame ring. */
  datatype Ctx = Ctx(state: int, agent: bool, conn: Option<nat>, moq: Moq, userSession: bool,
                     quicStart: bool, quicRestart: bool, iceRestart: bool,
                     fails: int, lastIceRecvUs: u64, queued: nat, continueSend: bool)

  /** A slot as p2p_engine_init leaves it. */
  const EMPTY_SLOT: Ctx := Ctx(IDLE, false, None, NO_MOQ, false, false, false, false, 0, 0, 0, false)

  /** The callbacks and passes that touch a peer, with what they see of the ICE agent, the
      clock, memory and the outcome of a connect. */
  datatype Event =
    | ConnCreated(c: nat, sessionOk: bool)
    | ConnClosed(c: nat, iceUp: bool)
    | HandshakeFinished(now: u64)
    | IceChanged(ice: IceState)
    | StartPass(allocOk: bool, connectOk: bool)
    | IdlePass(now: u64)
    | RestartPass(iceUp: bool, allocOk: bool, connectOk: bool)
    | Watchdog
    | PacketReceived(now: u64)
    | ContinuePass
    | MediaChanged(moq: Moq, queued: nat)
    | PeerRemoved
    | PeerAdded(agentOk: bool, allocOk: bool)

  /** The calls that matter to the other side: xqc_connect, xqc_conn_close, and the
      application's callback that asks for a new ICE negotiation. */
  datatype Call = Connects | Closes | AsksIceRestart

  // ---------- Specification ----------

  predicate IceAlive(p: Ctx, iceUp: bool) {
    p.agent && iceUp
  }

  function Create(p: Ctx, c: nat, sessionOk: bool): Ctx {
    if !p.moq.session && !sessionOk then p
    else p.(conn := Some(c), moq := p.moq.(session := true), lastIceRecvUs := 0)
  }

  function Close(p: Ctx, subscriber: bool, c: nat, iceUp: bool): Ctx {
    var q := p.(moq := NO_MOQ);
    if p.conn != Some(c) then q
    else if !IceAlive(p, iceUp) then
      q.(state := FAILED, conn := None, quicRestart := false, iceRestart := true)
    else
      var r := q.(state := ICE_CONNECTED, conn := None, fails := p.fails + 1);
      if !subscriber then r
      else if r.fails > MAX_QUIC_FAILURES then r.(iceRestart := true, quicRestart := false, fails := 0)
      else r.(quicRestart := true)
  }

  /** p2p_peer_start_quic; a subscriber connects, unless a handshake is under way already or
      there is no memory for a user session. */
  function StartQuic(p: Ctx, subscriber: bool, allocOk: bool, connectOk: bool): (Ctx, seq<Call>) {
    if p.state >= QUIC_HANDSHAKING then (p, [])
    else
      var q := p.(moq := NO_MOQ, queued := 0);
      if !p.userSession && !allocOk then (q, [])
      else if !subscriber then (q.(userSession := true), [])
      else (q.(userSession := true, state := if connectOk then QUIC_HANDSHAKING else FAILED), [Connects])
  }

  function ChangeIce(p: Ctx, ice: IceState): Ctx {
    match ice
    case IceGathering => p.(state := ICE_GATHERING)
    case IceConnecting => p.(state := ICE_CONNECTING)
    case IceConnected =>
      p.(state := if p.state < ICE_CONNECTED then ICE_CONNECTED else p.state, continueSend := true)
    case IceCompleted =>
      p.(state := if p.state < ICE_CONNECTED then ICE_CONNECTED else p.state, quicStart := true, continueSend := true)
    case IceFailed => p.(state := FAILED)
    case IceDisconnected => p.(state := CLOSED)
  }

  function Restart(p: Ctx, subscriber: bool, iceUp: bool, allocOk: bool, connectOk: bool): (Ctx, seq<Call>) {
    if p.iceRestart then (p.(iceRestart := false, quicRestart := false), [AsksIceRestart])
    else if p.quicRestart && p.state == ICE_CONNECTED then
      if p.agent && !iceUp then (p.(quicRestart := false, iceRestart := true), [])
      else StartQuic(p.(quicRestart := false), subscriber, allocOk, connectOk)
    else (p, [])
  }

  function Start(p: Ctx, subscriber: bool, allocOk: bool, connectOk: bool): (Ctx, seq<Call>) {
    if !p.quicStart then (p, [])
    else if p.state < ICE_CONNECTED then (p.(quicStart := false), [])
    else StartQuic(p.(quicStart := false), subscriber, allocOk, connectOk)
  }

  predicate TimedOut(p: Ctx, subscriber: bool, now: u64) {
    && !subscriber && p.state == QUIC_CONNECTED && p.conn.Some?
    && p.lastIceRecvUs != 0 && p.lastIceRecvUs <= now && now - p.lastIceRecvUs > IDLE_TIMEOUT_US
  }

  /** p2p_engine_remove_peer: counter, flags and clock reading stay in the slot. */
  function Remove(p: Ctx): (Ctx, seq<Call>) {
    (p.(state := IDLE, agent := false, conn := None, moq := NO_MOQ, queued := 0),
     if p.conn.Some? then [Closes] else [])
  }

  predicate Vacant(p: Ctx) {
    p.state == IDLE && !p.agent
  }

  /** p2p_engine_add_peer, for the slot it has chosen. */
  function Add(p: Ctx, agentOk: bool, allocOk: bool): Ctx {
    if !Vacant(p) || !agentOk || (!p.userSession && !allocOk) then p
    else p.(agent := true, userSession := true)
  }

  function Next(p: Ctx, subscriber: bool, e: Event): (Ctx, seq<Call>) {
    match e
    case ConnCreated(c, sessionOk) => (Create(p, c, sessionOk), [])
    case ConnClosed(c, iceUp) => (Close(p, subscriber, c, iceUp), [])
    case HandshakeFinished(now) => (p.(state := QUIC_CONNECTED, lastIceRecvUs := now, fails := 0), [])
    case IceChanged(ice) => (ChangeIce(p, ice), [])
    case StartPass(allocOk, connectOk) => Start(p, subscriber, allocOk, connectOk)
    case IdlePass(now) =>
      if TimedOut(p, subscriber, now)
      then (p.(conn := None, state := ICE_CONNECTED, lastIceRecvUs := 0), [Closes])
      else (p, [])
    case RestartPass(iceUp, allocOk, connectOk) => Restart(p, subscriber, iceUp, allocOk, connectOk)
    case Watchdog => (p.(quicRestart := true), [])
    case PacketReceived(now) => (p.(lastIceRecvUs := now), [])
    case ContinuePass => (p.(continueSend := false), [])
    case MediaChanged(moq, queued) => (p.(moq := moq, queued := queued), [])
    case PeerRemoved => Remove(p)
    case PeerAdded(agentOk, allocOk) => (Add(p, agentOk, allocOk), [])
  }

  /** The state after a run, and all calls made in it. */
  function Run(p: Ctx, subscriber: bool, evs: seq<Event>): (Ctx, seq<Call>) {
    if evs == [] then (p, [])
    else
      var (q, log) := Run(p, subscriber, evs[..|evs| - 1]);
      var (r, more) := Next(q, subscriber, evs[|evs| - 1]);
      (r, log + more)
  }

  lemma {:induction false} RunSnoc(p: Ctx, subscriber: bool, evs: seq<Event>, e: Event)
    ensures var (q, log) := Run(p, subscriber, evs);
            Run(p, subscriber, evs + [e]) == (Next(q, subscriber, e).0, log + Next(q, subscriber, e).1)
  {
    assert (evs + [e])[..|evs|] == evs;
  }

  // What the events have in common that leave most of a peer alone.

  predicate IsPass(e: Event) {
    e.StartPass? || e.RestartPass?
  }

  predicate Minor(e: Event) {
    e.Watchdog? || e.PacketReceived? || e.ContinuePass? || e.MediaChanged? || e.PeerAdded?
  }

  lemma {:induction false} MinorKeeps(p: Ctx, subscriber: bool, e: Event)
    requires Minor(e)
    ensures var q := Next(p, subscriber, e).0;
            && q.state == p.state && q.conn == p.conn && q.fails == p.fails
            && q.quicStart == p.quicStart && q.iceRestart == p.iceRestart
            && (!e.MediaChanged? ==> q.moq == p.moq)
            && (!e.Watchdog? ==> q.quicRestart == p.quicRestart)
            && (!e.PacketReceived? ==> q.lastIceRecvUs == p.lastIceRecvUs)
  {
    match e
    case Watchdog =>
    case PacketReceived(_) =>
    case ContinuePass =>
    case MediaChanged(_, _) =>
    case PeerAdded(_, _) =>
  }

  lemma {:induction false} IceKeeps(p: Ctx, subscriber: bool, e: Event)
    requires e.IceChanged?
    ensures var q := Next(p, subscriber, e).0;
            && q.conn == p.conn && q.fails == p.fails && q.moq == p.moq && q.lastIceRecvUs == p.lastIceRecvUs
            && q.quicRestart == p.quicRestart && q.iceRestart == p.iceRestart
            && q.quicStart == (p.quicStart || e.ice.IceCompleted?)
  {
    match e.ice
    case IceGathering =>
    case IceConnecting =>
    case IceConnected =>
    case IceCompleted =>
    case IceFailed =>
    case IceDisconnected =>
  }

  // ---------- Escalation ----------

  /** A failure that counts: the current connection closes while ICE is alive. */
  predicate Counts(p: Ctx, e: Event) {
    e.ConnClosed? && p.conn == Some(e.c) && p.agent && e.iceUp
  }

  /** The current connection closes with ICE dead, or without an agent. */
  predicate DiesWithIce(p: Ctx, e: Event) {
    e.ConnClosed? && p.conn == Some(e.c) && !(p.agent && e.iceUp)
  }

  function Failures(p: Ctx, subscriber: bool, evs: seq<Event>): nat {
    if evs == [] then 0
    else
      Failures(p, subscriber, evs[..|evs| - 1]) +
      if Counts(Run(p, subscriber, evs[..|evs| - 1]).0, evs[|evs| - 1]) then 1 else 0
  }

  predicate NoHandshake(evs: seq<Event>) {
    forall i :: 0 <= i < |evs| ==> !evs[i].HandshakeFinished?
  }

  lemma {:induction false} StartQuicKeeps(p: Ctx, subscriber: bool, allocOk: bool, connectOk: bool)
    ensures var q := StartQuic(p, subscriber, allocOk, connectOk).0;
            && q.fails == p.fails && q.quicStart == p.quicStart && q.iceRestart == p.iceRestart
            && q.conn == p.conn && q.lastIceRecvUs == p.lastIceRecvUs
  {}

  lemma {:induction false} StartKeeps(p: Ctx, subscriber: bool, e: Event)
    requires e.StartPass?
    ensures Next(p, subscriber, e).0.fails == p.fails && !Next(p, subscriber, e).0.quicStart
  {
    StartQuicKeeps(p.(quicStart := false), subscriber, e.allocOk, e.connectOk);
  }

  lemma {:induction false} RestartKeeps(p: Ctx, subscriber: bool, e: Event)
    requires e.RestartPass?
    ensures Next(p, subscriber, e).0.fails == p.fails && Next(p, subscriber, e).0.quicStart == p.quicStart
  {
    StartQuicKeeps(p.(quicRestart := false), subscriber, e.allocOk, e.connectOk);
  }

  /** A publisher's counter has no limit. */
  lemma {:induction false} CounterStep(p: Ctx, subscriber: bool, e: Event)
    ensures var q := Next(p, subscriber, e).0;
            q.fails == if e.HandshakeFinished? then 0
                       else if !Counts(p, e) then p.fails
                       else if subscriber && p.fails >= MAX_QUIC_FAILURES then 0 else p.fails + 1
  {
    if Minor(e) {
      MinorKeeps(p, subscriber, e);
    } else {
      match e
      case ConnCreated(_, _) =>
      case ConnClosed(_, _) =>
      case HandshakeFinished(_) =>
      case IceChanged(_) =>
        IceKeeps(p, subscriber, e);
      case StartPass(_, _) =>
        StartKeeps(p, subscriber, e);
      case IdlePass(_) =>
      case RestartPass(_, _, _) =>
        RestartKeeps(p, subscriber, e);
      case PeerRemoved =>
    }
  }

  lemma {:induction false} NextModuloFour(n: nat)
    ensures (n + 1) % 4 == if n % 4 == MAX_QUIC_FAILURES then 0 else n % 4 + 1
  {}

  /** Without a finished handshake a subscriber's counter is what the slot held at the start
      plus the number of counted failures, modulo four: it starts over exactly when it
      escalates. */
  lemma {:induction false} CounterIsModuloFour(p: Ctx, evs: seq<Event>)
    requires 0 <= p.fails <= MAX_QUIC_FAILURES && NoHandshake(evs)
    ensures Run(p, true, evs).0.fails == (p.fails + Failures(p, true, evs)) % 4
  {
    if evs == [] {
    } else {
      var before := evs[..|evs| - 1];
      CounterIsModuloFour(p, before);
      CounterStep(Run(p, true, before).0, true, evs[|evs| - 1]);
      NextModuloFour(p.fails + Failures(p, true, before));
    }
  }

  lemma {:induction false} FourthIsZero(n: nat)
    ensures (n + 1) % 4 == 0 <==> n % 4 == MAX_QUIC_FAILURES
  {}

  lemma {:induction false} FailureStep(p: Ctx, e: Event, n: nat)
    requires Counts(p, e) && p.fails == n % 4
    ensures var q := Next(p, true, e).0;
            && ((n + 1) % 4 == 0 ==> q.iceRestart && !q.quicRestart)
            && ((n + 1) % 4 != 0 ==> q.quicRestart && q.iceRestart == p.iceRestart)
            && q.state == ICE_CONNECTED && q.conn.None?
  {
    FourthIsZero(n);
  }

  /** The n-th counted failure, counting on from what the slot held at the start: every fourth
      raises the ICE restart and withdraws the reconnect; each of the others schedules a
      reconnect and raises nothing. */
  lemma {:induction false} EveryFourthFailureEscalates(p: Ctx, evs: seq<Event>, e: Event)
    requires 0 <= p.fails <= MAX_QUIC_FAILURES && NoHandshake(evs) && Counts(Run(p, true, evs).0, e)
    ensures var before := Run(p, true, evs).0;
            var (after, n) := (Next(before, true, e).0, p.fails + Failures(p, true, evs) + 1);
            && (n % 4 == 0 ==> after.iceRestart && !after.quicRestart)
            && (n % 4 != 0 ==> after.quicRestart && after.iceRestart == before.iceRestart)
            && after.state == ICE_CONNECTED && after.conn.None?
  {
    CounterIsModuloFour(p, evs);
    FailureStep(Run(p, true, evs).0, e, p.fails + Failures(p, true, evs));
  }

  /** The counter of a subscriber stays in 0..3 after every callback. */
  lemma {:induction false} CounterInRange(p: Ctx, evs: seq<Event>)
    requires 0 <= p.fails <= MAX_QUIC_FAILURES
    ensures 0 <= Run(p, true, evs).0.fails <= MAX_QUIC_FAILURES
  {
    if evs == [] {
    } else {
      CounterInRange(p, evs[..|evs| - 1]);
      CounterStep(Run(p, true, evs[..|evs| - 1]).0, true, evs[|evs| - 1]);
    }
  }

  /** What raises a request for an ICE restart: the current connection closes with ICE dead; a
      subscriber's close is the fourth that counts; or a restart pass finds ICE down when it
      would reconnect. */
  predicate RaisesIceRestart(p: Ctx, subscriber: bool, e: Event) {
    || DiesWithIce(p, e)
    || (subscriber && Counts(p, e) && p.fails >= MAX_QUIC_FAILURES)
    || (e.RestartPass? && p.quicRestart && p.state == ICE_CONNECTED && p.agent && !e.iceUp)
  }

  /** A request that was not pending is pending after an event exactly then; a publisher does
      not count, so that only dead ICE raises it. */
  lemma {:induction false} IceRestartIsRaised(p: Ctx, subscriber: bool, e: Event)
    requires !p.iceRestart
    ensures Next(p, subscriber, e).0.iceRestart <==> RaisesIceRestart(p, subscriber, e)
  {
    if Minor(e) {
      MinorKeeps(p, subscriber, e);
    } else if IsPass(e) {
      PassRaises(p, subscriber, e);
    } else if e.IceChanged? {
      IceKeeps(p, subscriber, e);
    } else if e.ConnClosed? {
      CloseRaises(p, subscriber, e);
    }
  }

  lemma {:induction false} PassRaises(p: Ctx, subscriber: bool, e: Event)
    requires !p.iceRestart && IsPass(e)
    ensures Next(p, subscriber, e).0.iceRestart <==>
            e.RestartPass? && p.quicRestart && p.state == ICE_CONNECTED && p.agent && !e.iceUp
  {
    match e
    case StartPass(_, _) =>
      StartQuicKeeps(p.(quicStart := false), subscriber, e.allocOk, e.connectOk);
    case RestartPass(_, _, _) =>
      StartQuicKeeps(p.(quicRestart := false), subscriber, e.allocOk, e.connectOk);
  }

  lemma {:induction false} CloseRaises(p: Ctx, subscriber: bool, e: Event)
    requires !p.iceRestart && e.ConnClosed?
    ensures Close(p, subscriber, e.c, e.iceUp).iceRestart <==>
            DiesWithIce(p, e) || (subscriber && Counts(p, e) && p.fails >= MAX_QUIC_FAILURES)
  {}

  /** A publisher never escalates by counting: only dead ICE raises its flag. */
  lemma {:induction false} PublisherOnlyEscalatesWhenIceIsDead(p: Ctx, e: Event)
    requires !p.iceRestart && Next(p, false, e).0.iceRestart
    ensures DiesWithIce(p, e) || (e.RestartPass? && p.agent && !e.iceUp)
  {
    IceRestartIsRaised(p, false, e);
  }

  // ---------- Calls ----------

  function CountCalls(log: seq<Call>, call: Call): nat {
    if log == [] then 0 else CountCalls(log[..|log| - 1], call) + if log[|log| - 1] == call then 1 else 0
  }

  lemma {:induction false} CountTogether(log: seq<Call>, more: seq<Call>, call: Call)
    ensures CountCalls(log + more, call) == CountCalls(log, call) + CountCalls(more, call)
  {
    if more == [] {
      assert log + more == log;
    } else {
      CountTogether(log, more[..|more| - 1], call);
      assert (log + more)[..|log + more| - 1] == log + more[..|more| - 1];
    }
  }

  /** How often the request for an ICE restart is raised anew in a run. */
  function Raises(p: Ctx, subscriber: bool, evs: seq<Event>): nat {
    if evs == [] then 0
    else
      var before := Run(p, subscriber, evs[..|evs| - 1]).0;
      Raises(p, subscriber, evs[..|evs| - 1]) +
      if !before.iceRestart && Next(before, subscriber, evs[|evs| - 1]).0.iceRestart then 1 else 0
  }

  function Pending(p: Ctx): nat {
    if p.iceRestart then 1 else 0
  }

  /** One event asks exactly when it takes back the request. */
  lemma {:induction false} AskStep(p: Ctx, subscriber: bool, e: Event)
    ensures var (q, calls) := Next(p, subscriber, e);
            && (CountCalls(calls, AsksIceRestart) == if p.iceRestart && e.RestartPass? then 1 else 0)
            && (p.iceRestart ==> (q.iceRestart <==> !e.RestartPass?))
  {
    assert CountCalls([], AsksIceRestart) == 0;
    assert [Connects][..0] == [] && [AsksIceRestart][..0] == [] && [Closes][..0] == [];
    assert CountCalls([Connects], AsksIceRestart) == 0 && CountCalls([Closes], AsksIceRestart) == 0;
    assert CountCalls([AsksIceRestart], AsksIceRestart) == 1;
  }

  /** In every run each raised request is made exactly once, or still pending: none is lost,
      none repeated. */
  lemma {:induction false} EveryRequestIsMadeOnce(p: Ctx, subscriber: bool, evs: seq<Event>)
    ensures var (q, log) := Run(p, subscriber, evs);
            CountCalls(log, AsksIceRestart) + Pending(q) == Raises(p, subscriber, evs) + Pending(p)
  {
    if evs == [] {
    } else {
      var before, e := evs[..|evs| - 1], evs[|evs| - 1];
      var (q, log) := Run(p, subscriber, before);
      EveryRequestIsMadeOnce(p, subscriber, before);
      AskStep(q, subscriber, e);
      CountTogether(log, Next(q, subscriber, e).1, AsksIceRestart);
    }
  }

  /** A restart pass makes at most one call for a peer: it asks for an ICE restart when one
      is pending, and otherwise connects if a subscriber's reconnect is scheduled, ICE is up
      and there is a user session. */
  lemma {:induction false} RestartDecision(p: Ctx, subscriber: bool, iceUp: bool, allocOk: bool, connectOk: bool)
    ensures var calls := Restart(p, subscriber, iceUp, allocOk, connectOk).1;
            && (AsksIceRestart in calls <==> p.iceRestart)
            && (Connects in calls <==>
                  && subscriber && !p.iceRestart && p.quicRestart && p.state == ICE_CONNECTED
                  && (p.agent ==> iceUp) && (p.userSession || allocOk))
            && |calls| <= 1
  {}

  predicate NoRestartPass(evs: seq<Event>) {
    forall i :: 0 <= i < |evs| ==> !evs[i].RestartPass?
  }

  lemma {:induction false} EscalationStays(p: Ctx, subscriber: bool, evs: seq<Event>)
    requires p.iceRestart && NoRestartPass(evs)
    ensures Run(p, subscriber, evs).0.iceRestart && AsksIceRestart !in Run(p, subscriber, evs).1
  {
    if evs == [] {
    } else {
      var before, e := evs[..|evs| - 1], evs[|evs| - 1];
      EscalationStays(p, subscriber, before);
      AskStep(Run(p, subscriber, before).0, subscriber, e);
    }
  }

  /** Once raised, the request survives everything up to the next restart pass, which makes
      it and does not connect; in particular the fourth failure always leads to it. */
  lemma {:induction false} EscalationIsServed(p: Ctx, subscriber: bool, evs: seq<Event>, pass: Event)
    requires p.iceRestart && NoRestartPass(evs) && pass.RestartPass?
    ensures Next(Run(p, subscriber, evs).0, subscriber, pass).1 == [AsksIceRestart]
  {
    EscalationStays(p, subscriber, evs);
  }

  lemma {:induction false} DeathMarks(p: Ctx, subscriber: bool, e: Event)
    requires DiesWithIce(p, e)
    ensures Next(p, subscriber, e) == (p.(state := FAILED, conn := None, moq := NO_MOQ, quicRestart := false,
                                          iceRestart := true), [])
  {}

  /** When the current connection closes with ICE dead, the peer has failed, and has no
      connection, no media session and no reconnect scheduled; and whatever comes up to the
      next restart pass, that pass asks for an ICE restart and does nothing else. */
  lemma {:induction false} DeadCloseIsServed(p: Ctx, subscriber: bool, close: Event, evs: seq<Event>, pass: Event)
    requires DiesWithIce(p, close) && NoRestartPass(evs) && pass.RestartPass?
    ensures var q := Next(p, subscriber, close).0;
            && q.state == FAILED && q.conn.None? && !q.moq.session && !q.quicRestart && q.fails == p.fails
            && Next(Run(q, subscriber, evs).0, subscriber, pass).1 == [AsksIceRestart]
  {
    DeathMarks(p, subscriber, close);
    EscalationIsServed(Next(p, subscriber, close).0, subscriber, evs, pass);
  }

  // ---------- Connecting before the request is made ----------

  /** Completion is noted when ICE reports it, and forgotten by the next start pass. */
  function Noted(before: bool, e: Event): bool {
    match e
    case IceChanged(ice) => before || ice.IceCompleted?
    case StartPass(_, _) => false
    case _ => before
  }

  /** ICE has been reported complete since the last start pass, or else was at the start. */
  function CompletedSince(before: bool, evs: seq<Event>): bool {
    if evs == [] then before else Noted(CompletedSince(before, evs[..|evs| - 1]), evs[|evs| - 1])
  }

  lemma {:induction false} FlagStep(p: Ctx, subscriber: bool, e: Event)
    ensures Next(p, subscriber, e).0.quicStart == Noted(p.quicStart, e)
  {
    if Minor(e) {
      MinorKeeps(p, subscriber, e);
    } else {
      match e
      case ConnCreated(_, _) =>
      case ConnClosed(_, _) =>
      case HandshakeFinished(_) =>
      case IceChanged(_) =>
        IceKeeps(p, subscriber, e);
      case StartPass(_, _) =>
        StartKeeps(p, subscriber, e);
      case IdlePass(_) =>
      case RestartPass(_, _, _) =>
        RestartKeeps(p, subscriber, e);
      case PeerRemoved =>
    }
  }

  /** The start flag says just that. */
  lemma {:induction false} FlagIsCompletion(p: Ctx, subscriber: bool, evs: seq<Event>)
    ensures Run(p, subscriber, evs).0.quicStart == CompletedSince(p.quicStart, evs)
  {
    if evs == [] {
    } else {
      FlagIsCompletion(p, subscriber, evs[..|evs| - 1]);
      FlagStep(Run(p, subscriber, evs[..|evs| - 1]).0, subscriber, evs[|evs| - 1]);
    }
  }

  /** A start pass finds a subscriber's peer with ICE up, no handshake under way and a user
      session to be had, and ICE reported complete since the start pass before. */
  predicate StartsAfterCompletion(p: Ctx, subscriber: bool, before: seq<Event>, e: Event) {
    var q := Run(p, subscriber, before).0;
    && e.StartPass? && subscriber && q.state == ICE_CONNECTED && (q.userSession || e.allocOk)
    && CompletedSince(p.quicStart, before)
  }

  /** That happens somewhere in the run. */
  predicate SomeStartAfterCompletion(p: Ctx, subscriber: bool, evs: seq<Event>) {
    && evs != []
    && (|| SomeStartAfterCompletion(p, subscriber, evs[..|evs| - 1])
        || StartsAfterCompletion(p, subscriber, evs[..|evs| - 1], evs[|evs| - 1]))
  }

  lemma {:induction false} ConnectStep(p: Ctx, subscriber: bool, e: Event)
    requires !e.RestartPass?
    ensures Connects in Next(p, subscriber, e).1 <==>
            && e.StartPass? && subscriber && p.quicStart && p.state == ICE_CONNECTED
            && (p.userSession || e.allocOk)
  {}

  lemma {:induction false} ConnectsIffStarted(p: Ctx, subscriber: bool, evs: seq<Event>)
    requires NoRestartPass(evs)
    ensures Connects in Run(p, subscriber, evs).1 <==> SomeStartAfterCompletion(p, subscriber, evs)
  {
    if evs == [] {
    } else {
      var before, e := evs[..|evs| - 1], evs[|evs| - 1];
      ConnectsIffStarted(p, subscriber, before);
      FlagIsCompletion(p, subscriber, before);
      ConnectStep(Run(p, subscriber, before).0, subscriber, e);
    }
  }

  /** An escalated peer should be left alone until its request has been made. Before the next
      restart pass, with the request still pending, it is connected if and only if a start pass
      comes after ICE has been reported complete: the start pass does not look at the request. */
  lemma {:induction false} EscalatedConnectsIffStarted(p: Ctx, subscriber: bool, evs: seq<Event>)
    requires p.iceRestart && NoRestartPass(evs)
    ensures var (q, log) := Run(p, subscriber, evs);
            && q.iceRestart && AsksIceRestart !in log
            && (Connects in log <==> SomeStartAfterCompletion(p, subscriber, evs))
  {
    EscalationStays(p, subscriber, evs);
    ConnectsIffStarted(p, subscriber, evs);
  }

  /** So it is left alone as long as ICE does not complete meanwhile. */
  lemma {:induction false} EscalatedWaitsForItsRequest(p: Ctx, subscriber: bool, evs: seq<Event>)
    requires p.iceRestart && NoRestartPass(evs) && !p.quicStart
    requires forall i :: 0 <= i < |evs| ==> evs[i] != IceChanged(IceCompleted)
    ensures Connects !in Run(p, subscriber, evs).1
  {
    NeverCompleted(p, subscriber, evs);
    EscalatedConnectsIffStarted(p, subscriber, evs);
  }

  lemma {:induction false} NeverCompleted(p: Ctx, subscriber: bool, evs: seq<Event>)
    requires !p.quicStart && forall i :: 0 <= i < |evs| ==> evs[i] != IceChanged(IceCompleted)
    ensures !CompletedSince(p.quicStart, evs) && !SomeStartAfterCompletion(p, subscriber, evs)
  {
    if evs == [] {
    } else {
      NeverCompleted(p, subscriber, evs[..|evs| - 1]);
    }
  }

  /** n times: a connection comes up, and closes with ICE alive before its handshake is done. */
  function FailedConnects(n: nat): seq<Event> {
    if n == 0 then [] else FailedConnects(n - 1) + [ConnCreated(n, true)] + [ConnClosed(n, true)]
  }

  lemma {:induction false} OneFailedConnect(p: Ctx, evs: seq<Event>, c: nat)
    ensures var (q, log) := Run(p, true, evs);
            Run(p, true, evs + [ConnCreated(c, true)] + [ConnClosed(c, true)]) ==
            (Close(Create(q, c, true), true, c, true), log)
  {
    var (q, log) := Run(p, true, evs);
    RunSnoc(p, true, evs, ConnCreated(c, true));
    RunSnoc(p, true, evs + [ConnCreated(c, true)], ConnClosed(c, true));
    assert log + [] == log;
  }

  predicate Waiting(p: Ctx) {
    p.agent && p.state == ICE_CONNECTED && p.moq == NO_MOQ && p.lastIceRecvUs == 0 && p.conn.None?
  }

  lemma {:induction false} CreateThenClose(p: Ctx, c: nat)
    requires Waiting(p)
    ensures Close(Create(p, c, true), true, c, true)
         == if p.fails + 1 > MAX_QUIC_FAILURES then p.(fails := 0, quicRestart := false, iceRestart := true)
            else p.(fails := p.fails + 1, quicRestart := true)
  {}

  lemma {:induction false} AfterFailedConnects(p: Ctx, n: nat)
    requires Waiting(p) && p.fails == 0 && 1 <= n <= 3
    ensures Run(p, true, FailedConnects(n)) == (p.(fails := n, quicRestart := true), [])
  {
    if n == 1 {
      assert Run(p, true, FailedConnects(0)) == (p, []);
    } else {
      AfterFailedConnects(p, n - 1);
    }
    var q := Run(p, true, FailedConnects(n - 1)).0;
    OneFailedConnect(p, FailedConnects(n - 1), n);
    CreateThenClose(q, n);
  }

  /** A subscriber that has failed four times, and whose ICE agent then reports completion, is
      connected by the start pass and asks for an ICE restart in the restart pass behind it. */
  lemma {:induction false} EscalatedIsConnectedAllTheSame()
    ensures var p := EMPTY_SLOT.(state := ICE_CONNECTED, agent := true, userSession := true);
            var evs := FailedConnects(4) + [IceChanged(IceCompleted)] + [StartPass(true, true)]
                       + [RestartPass(true, true, true)];
            Run(p, true, evs).1 == [Connects, AsksIceRestart]
  {
    var p := EMPTY_SLOT.(state := ICE_CONNECTED, agent := true, userSession := true);
    var evs := FailedConnects(4);
    AfterFailedConnects(p, 3);
    OneFailedConnect(p, FailedConnects(3), 4);
    CreateThenClose(Run(p, true, FailedConnects(3)).0, 4);
    CompletedThenPasses(Run(p, true, evs).0);
    RunSnoc(p, true, evs, IceChanged(IceCompleted));
    evs := evs + [IceChanged(IceCompleted)];
    RunSnoc(p, true, evs, StartPass(true, true));
    evs := evs + [StartPass(true, true)];
    RunSnoc(p, true, evs, RestartPass(true, true, true));
    assert [] + [Connects] + [AsksIceRestart] == [Connects, AsksIceRestart];
  }

  lemma {:induction false} CompletedThenPasses(q: Ctx)
    requires q.state == ICE_CONNECTED && q.userSession && q.iceRestart
    ensures var (q1, log1) := Next(q, true, IceChanged(IceCompleted));
            var (q2, log2) := Next(q1, true, StartPass(true, true));
            var log3 := Next(q2, true, RestartPass(true, true, true)).1;
            log1 == [] && log2 == [Connects] && log3 == [AsksIceRestart]
  {}

  // ---------- The media session ----------

  /** A pass prepares a new connection: ICE is up, no handshake is under way, and the pass has
      been asked to start, or to reconnect. */
  predicate Prepares(p: Ctx, e: Event) {
    && p.state == ICE_CONNECTED
    && (|| (e.StartPass? && p.quicStart)
        || (e.RestartPass? && !p.iceRestart && p.quicRestart && (p.agent ==> e.iceUp)))
  }

  /** What ends a media session: a removal, its own end, a pass that prepares a new connection,
      and the close of any connection, also of one that has been superseded. */
  predicate EndsSession(p: Ctx, e: Event) {
    match e
    case ConnClosed(_, _) => true
    case PeerRemoved => true
    case MediaChanged(moq, _) => !moq.session
    case _ => Prepares(p, e)
  }

  /** What brings one up: a new connection, or the media layer itself. */
  predicate BeginsSession(e: Event) {
    match e
    case ConnCreated(_, _) => true
    case MediaChanged(moq, _) => moq.session
    case _ => false
  }

  lemma {:induction false} SessionInPass(p: Ctx, subscriber: bool, e: Event)
    requires e.StartPass? || e.RestartPass?
    ensures Next(p, subscriber, e).0.moq == if EndsSession(p, e) then NO_MOQ else p.moq
  {
    match e
    case StartPass(_, _) =>
    case RestartPass(_, _, _) =>
  }

  predicate TouchesSession(e: Event) {
    e.ConnCreated? || e.ConnClosed? || e.MediaChanged? || e.PeerRemoved?
  }

  lemma {:induction false} SessionTouched(p: Ctx, subscriber: bool, e: Event)
    requires TouchesSession(e)
    ensures EndsSession(p, e) ==> !Next(p, subscriber, e).0.moq.session
    ensures !EndsSession(p, e) && p.moq.session ==> Next(p, subscriber, e).0.moq.session
    ensures !BeginsSession(e) && !p.moq.session ==> !Next(p, subscriber, e).0.moq.session
  {
    match e
    case ConnCreated(_, _) =>
    case ConnClosed(_, _) =>
    case MediaChanged(_, _) =>
    case PeerRemoved =>
  }

  lemma {:induction false} SessionUntouched(p: Ctx, subscriber: bool, e: Event)
    requires !TouchesSession(e) && !e.StartPass? && !e.RestartPass?
    ensures Next(p, subscriber, e).0.moq == p.moq && !EndsSession(p, e)
  {
    if Minor(e) {
      MinorKeeps(p, subscriber, e);
    } else if e.IceChanged? {
      IceKeeps(p, subscriber, e);
    }
  }

  /** A live session ends exactly so. */
  lemma {:induction false} SessionEnds(p: Ctx, subscriber: bool, e: Event)
    requires p.moq.session
    ensures !Next(p, subscriber, e).0.moq.session <==> EndsSession(p, e)
  {
    if e.StartPass? || e.RestartPass? {
      SessionInPass(p, subscriber, e);
    } else if TouchesSession(e) {
      SessionTouched(p, subscriber, e);
    } else {
      SessionUntouched(p, subscriber, e);
    }
  }

  lemma {:induction false} SilentStep(p: Ctx, subscriber: bool, e: Event)
    requires !p.moq.session && !BeginsSession(e)
    ensures !Next(p, subscriber, e).0.moq.session
  {
    if e.StartPass? || e.RestartPass? {
      SessionInPass(p, subscriber, e);
    } else if TouchesSession(e) {
      SessionTouched(p, subscriber, e);
    } else {
      SessionUntouched(p, subscriber, e);
    }
  }

  /** Without that it stays down. */
  lemma {:induction false} SilentUntilNextConnection(p: Ctx, subscriber: bool, evs: seq<Event>)
    requires !p.moq.session
    requires forall i :: 0 <= i < |evs| ==> !BeginsSession(evs[i])
    ensures !Run(p, subscriber, evs).0.moq.session
  {
    if evs == [] {
    } else {
      SilentUntilNextConnection(p, subscriber, evs[..|evs| - 1]);
      SilentStep(Run(p, subscriber, evs[..|evs| - 1]).0, subscriber, evs[|evs| - 1]);
    }
  }

  /** Two connections come up, and the first, superseded, closes: the peer stays connected
      over the second, and has no media session. */
  lemma {:induction false} StaleCloseSilences(now: u64)
    ensures var p := EMPTY_SLOT.(state := ICE_CONNECTED, agent := true, userSession := true);
            var evs := [ConnCreated(1, true)] + [HandshakeFinished(now)] + [ConnCreated(2, true)]
                       + [HandshakeFinished(now)] + [ConnClosed(1, true)];
            var q := Run(p, true, evs).0;
            q.state == QUIC_CONNECTED && q.conn == Some(2) && q.moq == NO_MOQ
  {
    var p := EMPTY_SLOT.(state := ICE_CONNECTED, agent := true, userSession := true);
    var evs := [ConnCreated(1, true)];
    RunSnoc(p, true, [], ConnCreated(1, true));
    assert [] + evs == evs;
    RunSnoc(p, true, evs, HandshakeFinished(now));
    evs := evs + [HandshakeFinished(now)];
    RunSnoc(p, true, evs, ConnCreated(2, true));
    evs := evs + [ConnCreated(2, true)];
    RunSnoc(p, true, evs, HandshakeFinished(now));
    evs := evs + [HandshakeFinished(now)];
    RunSnoc(p, true, evs, ConnClosed(1, true));
  }

  // ---------- Slots used again ----------

  /** A new peer in the slot of a removed one inherits its failure count, its three flags and
      its clock reading, and nothing else. */
  lemma {:induction false} NewPeerInherits(p: Ctx, subscriber: bool, allocOk: bool)
    requires p.userSession || allocOk
    ensures Run(p, subscriber, [PeerRemoved] + [PeerAdded(true, allocOk)]).0
         == EMPTY_SLOT.(agent := true, userSession := true, quicStart := p.quicStart, quicRestart := p.quicRestart,
                        iceRestart := p.iceRestart, fails := p.fails, lastIceRecvUs := p.lastIceRecvUs,
                        continueSend := p.continueSend)
  {
    RunSnoc(p, subscriber, [], PeerRemoved);
    RunSnoc(p, subscriber, [PeerRemoved], PeerAdded(true, allocOk));
    assert [] + [PeerRemoved] == [PeerRemoved];
  }

  /** So the first failure of a new peer escalates, if the peer before it had failed three times. */
  lemma {:induction false} NewPeerEscalatesAtOnce(p: Ctx)
    requires p.fails == MAX_QUIC_FAILURES && p.userSession && !p.iceRestart
    ensures var evs := [PeerRemoved] + [PeerAdded(true, true)] + [IceChanged(IceConnected)]
                       + [ConnCreated(1, true)] + [ConnClosed(1, true)];
            Run(p, true, evs).0.iceRestart && Run(p, true, evs[..4]).0.fails == MAX_QUIC_FAILURES
  {
    var evs := [PeerRemoved] + [PeerAdded(true, true)];
    NewPeerInherits(p, true, true);
    RunSnoc(p, true, evs, IceChanged(IceConnected));
    evs := evs + [IceChanged(IceConnected)];
    RunSnoc(p, true, evs, ConnCreated(1, true));
    evs := evs + [ConnCreated(1, true)];
    RunSnoc(p, true, evs, ConnClosed(1, true));
    assert (evs + [ConnClosed(1, true)])[..4] == evs;
  }

  // ---------- What changes each field ----------

  /** The pass goes on to connect: a subscriber, with a user session to be had. */
  predicate Tries(p: Ctx, subscriber: bool, e: Event) {
    Prepares(p, e) && subscriber && (p.userSession || e.allocOk)
  }

  /** A publisher's connected peer has been silent for more than a minute. */
  predicate FallsSilent(p: Ctx, subscriber: bool, e: Event) {
    && e.IdlePass? && !subscriber && p.state == QUIC_CONNECTED && p.conn.Some?
    && 0 < p.lastIceRecvUs && e.now > p.lastIceRecvUs + 60000000
  }

  /** What takes a peer to a state. */
  predicate Enters(p: Ctx, subscriber: bool, e: Event, state: int) {
    || (state == IDLE && e.PeerRemoved?)
    || (state == ICE_GATHERING && e == IceChanged(IceGathering))
    || (state == ICE_CONNECTING && e == IceChanged(IceConnecting))
    || (state == ICE_CONNECTED && (e == IceChanged(IceConnected) || e == IceChanged(IceCompleted))
        && p.state < ICE_CONNECTED)
    || (state == ICE_CONNECTED && (Counts(p, e) || FallsSilent(p, subscriber, e)))
    || (state == QUIC_HANDSHAKING && Tries(p, subscriber, e) && e.connectOk)
    || (state == QUIC_CONNECTED && e.HandshakeFinished?)
    || (state == FAILED && (DiesWithIce(p, e) || e == IceChanged(IceFailed)))
    || (state == FAILED && Tries(p, subscriber, e) && !e.connectOk)
    || (state == CLOSED && e == IceChanged(IceDisconnected))
  }

  /** A pass changes state, media session, ring and user session exactly when it prepares a
      connection, and calls xqc_connect exactly when it tries. */
  lemma {:induction false} PassDoes(p: Ctx, subscriber: bool, e: Event)
    requires IsPass(e)
    ensures var (q, calls) := Next(p, subscriber, e);
            && q.state == (if !Tries(p, subscriber, e) then p.state
                           else if e.connectOk then QUIC_HANDSHAKING else FAILED)
            && q.moq == (if Prepares(p, e) then NO_MOQ else p.moq)
            && q.queued == (if Prepares(p, e) then 0 else p.queued)
            && q.userSession == (p.userSession || (Prepares(p, e) && e.allocOk))
            && (Connects in calls <==> Tries(p, subscriber, e))
            && q.agent == p.agent && q.conn == p.conn && q.lastIceRecvUs == p.lastIceRecvUs
            && q.continueSend == p.continueSend
  {
    match e
    case StartPass(_, _) =>
    case RestartPass(_, _, _) =>
  }

  /** The state changes exactly for these reasons. */
  lemma {:induction false} StateChanges(p: Ctx, subscriber: bool, e: Event, state: int)
    ensures Enters(p, subscriber, e, state) ==> Next(p, subscriber, e).0.state == state
    ensures Next(p, subscriber, e).0.state == state && p.state != state ==> Enters(p, subscriber, e, state)
  {
    if IsPass(e) {
      PassDoes(p, subscriber, e);
    } else if e.IceChanged? {
      IceChangesState(p, e.ice, state);
    } else if e.ConnClosed? {
      CloseChangesState(p, subscriber, e, state);
    } else if e.IdlePass? {
      IdleChangesState(p, subscriber, e, state);
    } else {
      StateOtherwise(p, subscriber, e, state);
    }
  }

  lemma {:induction false} IceChangesState(p: Ctx, ice: IceState, state: int)
    ensures Enters(p, false, IceChanged(ice), state) ==> ChangeIce(p, ice).state == state
    ensures ChangeIce(p, ice).state == state && p.state != state ==> Enters(p, false, IceChanged(ice), state)
  {
    match ice
    case IceGathering =>
    case IceConnecting =>
    case IceConnected =>
    case IceCompleted =>
    case IceFailed =>
    case IceDisconnected =>
  }

  lemma {:induction false} CloseChangesState(p: Ctx, subscriber: bool, e: Event, state: int)
    requires e.ConnClosed?
    ensures Enters(p, subscriber, e, state) ==> Close(p, subscriber, e.c, e.iceUp).state == state
    ensures Close(p, subscriber, e.c, e.iceUp).state == state && p.state != state ==> Enters(p, subscriber, e, state)
  {}

  lemma {:induction false} IdleChangesState(p: Ctx, subscriber: bool, e: Event, state: int)
    requires e.IdlePass?
    ensures Enters(p, subscriber, e, state) ==> Next(p, subscriber, e).0.state == state
    ensures Next(p, subscriber, e).0.state == state && p.state != state ==> Enters(p, subscriber, e, state)
  {}

  lemma {:induction false} StateOtherwise(p: Ctx, subscriber: bool, e: Event, state: int)
    requires !IsPass(e) && !e.IceChanged? && !e.ConnClosed? && !e.IdlePass?
    ensures Enters(p, subscriber, e, state) ==> Next(p, subscriber, e).0.state == state
    ensures Next(p, subscriber, e).0.state == state && p.state != state ==> Enters(p, subscriber, e, state)
  {
    if Minor(e) {
      MinorKeeps(p, subscriber, e);
    }
  }

  /** The connection is the one created last, until it closes, falls silent or is removed. */
  lemma {:induction false} ConnectionChanges(p: Ctx, subscriber: bool, e: Event)
    ensures Next(p, subscriber, e).0.conn ==
            if e.ConnCreated? && (p.moq.session || e.sessionOk) then Some(e.c)
            else if e.ConnClosed? && p.conn == Some(e.c) then None
            else if e == PeerRemoved || FallsSilent(p, subscriber, e) then None
            else p.conn
  {
    if Minor(e) {
      MinorKeeps(p, subscriber, e);
    } else if IsPass(e) {
      PassKeepsConnection(p, subscriber, e);
    } else if e.IceChanged? {
      IceKeeps(p, subscriber, e);
    } else {
      match e
      case ConnCreated(_, _) =>
      case ConnClosed(_, _) =>
      case HandshakeFinished(_) =>
      case IdlePass(_) =>
      case PeerRemoved =>
    }
  }

  lemma {:induction false} PassKeepsConnection(p: Ctx, subscriber: bool, e: Event)
    requires IsPass(e)
    ensures Next(p, subscriber, e).0.conn == p.conn && Next(p, subscriber, e).0.lastIceRecvUs == p.lastIceRecvUs
  {
    match e
    case StartPass(_, _) =>
      StartQuicKeeps(p.(quicStart := false), subscriber, e.allocOk, e.connectOk);
    case RestartPass(_, _, _) =>
      StartQuicKeeps(p.(quicRestart := false), subscriber, e.allocOk, e.connectOk);
  }

  /** A reconnect is scheduled by a subscriber's first three counted failures and by the
      watchdog, and stays so until a restart pass deals with it or an ICE restart replaces it. */
  lemma {:induction false} ReconnectIsScheduled(p: Ctx, subscriber: bool, e: Event)
    ensures Next(p, subscriber, e).0.quicRestart <==>
            || e == Watchdog
            || (subscriber && Counts(p, e) && p.fails < MAX_QUIC_FAILURES)
            || (p.quicRestart && !(e.RestartPass? && (p.iceRestart || p.state == ICE_CONNECTED))
                && !DiesWithIce(p, e) && !(subscriber && Counts(p, e)))
  {
    if IsPass(e) {
      ReconnectInPass(p, subscriber, e);
    } else if e.ConnClosed? {
      ReconnectAtClose(p, subscriber, e);
    } else {
      ReconnectOtherwise(p, subscriber, e);
    }
  }

  lemma {:induction false} ReconnectInPass(p: Ctx, subscriber: bool, e: Event)
    requires IsPass(e)
    ensures Next(p, subscriber, e).0.quicRestart <==>
            p.quicRestart && !(e.RestartPass? && (p.iceRestart || p.state == ICE_CONNECTED))
  {
    match e
    case StartPass(_, _) =>
    case RestartPass(_, _, _) =>
  }

  lemma {:induction false} ReconnectAtClose(p: Ctx, subscriber: bool, e: Event)
    requires e.ConnClosed?
    ensures Close(p, subscriber, e.c, e.iceUp).quicRestart <==>
            || (subscriber && Counts(p, e) && p.fails < MAX_QUIC_FAILURES)
            || (p.quicRestart && !DiesWithIce(p, e) && !(subscriber && Counts(p, e)))
  {}

  lemma {:induction false} ReconnectOtherwise(p: Ctx, subscriber: bool, e: Event)
    requires !IsPass(e) && !e.ConnClosed?
    ensures Next(p, subscriber, e).0.quicRestart == (p.quicRestart || e == Watchdog)
  {
    if Minor(e) {
      MinorKeeps(p, subscriber, e);
    } else if e.IceChanged? {
      IceKeeps(p, subscriber, e);
    }
  }

  /** When a peer was last heard of: a packet or the end of a handshake; a new connection and a
      silence noticed make it unknown. */
  function HeardAfter(p: Ctx, subscriber: bool, e: Event): u64 {
    if e.PacketReceived? then e.now
    else if e.HandshakeFinished? then e.now
    else if e.ConnCreated? && (p.moq.session || e.sessionOk) then 0
    else if FallsSilent(p, subscriber, e) then 0
    else p.lastIceRecvUs
  }

  lemma {:induction false} HearingChanges(p: Ctx, subscriber: bool, e: Event)
    ensures Next(p, subscriber, e).0.lastIceRecvUs == HeardAfter(p, subscriber, e)
  {
    if IsPass(e) {
      PassKeepsConnection(p, subscriber, e);
    } else if Minor(e) {
      MinorKeeps(p, subscriber, e);
    } else if e.IceChanged? {
      IceKeeps(p, subscriber, e);
    } else {
      match e
      case ConnCreated(_, _) =>
      case ConnClosed(_, _) =>
      case HandshakeFinished(_) =>
      case IdlePass(_) =>
      case PeerRemoved =>
    }
  }

  predicate Unheard(evs: seq<Event>) {
    forall i :: 0 <= i < |evs| ==>
      !evs[i].PacketReceived? && !evs[i].HandshakeFinished? && !evs[i].ConnCreated? && !evs[i].IdlePass?
  }

  lemma {:induction false} UnheardKeeps(p: Ctx, subscriber: bool, evs: seq<Event>)
    requires Unheard(evs)
    ensures Run(p, subscriber, evs).0.lastIceRecvUs == p.lastIceRecvUs
  {
    if evs == [] {
    } else {
      var before := evs[..|evs| - 1];
      UnheardKeeps(p, subscriber, before);
      HearingChanges(Run(p, subscriber, before).0, subscriber, evs[|evs| - 1]);
    }
  }

  /** Behind its last packet, and whatever else has come since, a publisher's idle pass closes a
      peer's connection exactly when the peer is connected and more than a minute has gone by;
      otherwise it leaves the peer as it is. A subscriber's closes none. */
  lemma {:induction false} SilentMinuteCloses(p: Ctx, subscriber: bool, heard: Event, evs: seq<Event>, now: u64)
    requires (heard.PacketReceived? || heard.HandshakeFinished?) && heard.now > 0 && Unheard(evs)
    ensures var q := Run(Next(p, subscriber, heard).0, subscriber, evs).0;
            var (r, calls) := Next(q, subscriber, IdlePass(now));
            if !subscriber && q.state == QUIC_CONNECTED && q.conn.Some? && now > heard.now + 60000000
            then calls == [Closes] && r.conn.None? && r.state == ICE_CONNECTED && r.quicRestart == q.quicRestart
            else calls == [] && r == q
  {
    UnheardKeeps(Next(p, subscriber, heard).0, subscriber, evs);
  }

  // ---------- The code ----------

  class Peer {
    var state: int
    var agent: bool
    var conn: Option<nat>
    var moq: Moq
    var moqUserSession: bool
    var needsQuicStart: bool
    var needsQuicRestart: bool
    var needsIceRestart: bool
    var quicRestartFailCount: int
    var lastIceRecvUs: u64
    var queued: nat
    var needsContinueSend: bool

    ghost function Abs(): Ctx
      reads this
    {
      Ctx(state, agent, conn, moq, moqUserSession, needsQuicStart, needsQuicRestart, needsIceRestart,
          quicRestartFailCount, lastIceRecvUs, queued, needsContinueSend)
    }

    constructor ()
      ensures Abs() == EMPTY_SLOT
    {
      state, agent, conn, moq, moqUserSession := IDLE, false, None, NO_MOQ, false;
      needsQuicStart, needsQuicRestart, needsIceRestart := false, false, false;
      quicRestartFailCount, lastIceRecvUs, queued, needsContinueSend := 0, 0, 0, false;
    }

    /** xqc_conn_create_notify_cb. */
    method ConnCreateNotify(c: nat, sessionOk: bool) returns (rc: int)
      modifies this
      ensures Abs() == Next(old(Abs()), true, ConnCreated(c, sessionOk)).0
      ensures rc == if old(moq.session) || sessionOk then 0 else -1
      ensures rc == 0 ==> conn == Some(c) && moq == old(moq).(session := true) && lastIceRecvUs == 0
      ensures rc == -1 ==> Abs() == old(Abs())
    {
      if !moq.session {
        if !sessionOk {
          return -1;
        }
        moq := moq.(session := true);
      }
      lastIceRecvUs := 0;
      conn := Some(c);
      return 0;
    }

    /** xqc_conn_close_notify_cb. */
    method ConnCloseNotify(subscriber: bool, c: nat, iceUp: bool)
      modifies this
      ensures Abs() == Next(old(Abs()), subscriber, ConnClosed(c, iceUp)).0
      ensures moq == NO_MOQ
      ensures old(conn) != Some(c) ==> Abs() == old(Abs()).(moq := NO_MOQ)
      ensures old(conn) == Some(c) ==> conn.None? && state == if old(agent) && iceUp then ICE_CONNECTED else FAILED
      ensures old(conn) == Some(c) && !(old(agent) && iceUp) ==> needsIceRestart && !needsQuicRestart
    {
      moq := Moq(false, false, false, -1, -1, false);
      if conn == Some(c) {
        var iceAlive := false;
        if agent {
          iceAlive := iceUp;
        }
        if iceAlive {
          state := ICE_CONNECTED;
          conn := None;
          quicRestartFailCount := quicRestartFailCount + 1;
          if subscriber {
            if quicRestartFailCount > MAX_QUIC_FAILURES {
              needsIceRestart := true;
              needsQuicRestart := false;
              quicRestartFailCount := 0;
            } else {
              needsQuicRestart := true;
            }
          }
        } else {
          state := FAILED;
          conn := None;
          needsQuicRestart := false;
          needsIceRestart := true;
        }
      }
    }

    /** xqc_conn_handshake_finished_cb. */
    method HandshakeFinishedCb(now: u64)
      modifies this
      ensures Abs() == Next(old(Abs()), true, HandshakeFinished(now)).0
      ensures state == QUIC_CONNECTED && lastIceRecvUs == now && quicRestartFailCount == 0
    {
      state := QUIC_CONNECTED;
      lastIceRecvUs := now;
      quicRestartFailCount := 0;
    }

    /** ice_on_state_changed. */
    method OnIceState(ice: IceState)
      modifies this
      ensures Abs() == Next(old(Abs()), true, IceChanged(ice)).0
      ensures needsQuicStart <==> old(needsQuicStart) || ice == IceCompleted
      ensures needsContinueSend <==> old(needsContinueSend) || ice == IceConnected || ice == IceCompleted
    {
      match ice
      case IceGathering => state := ICE_GATHERING;
      case IceConnecting => state := ICE_CONNECTING;
      case IceConnected =>
        if state < ICE_CONNECTED {
          state := ICE_CONNECTED;
        }
        needsContinueSend := true;
      case IceCompleted =>
        if state < ICE_CONNECTED {
          state := ICE_CONNECTED;
        }
        needsQuicStart := true;
        needsContinueSend := true;
      case IceFailed => state := FAILED;
      case IceDisconnected => state := CLOSED;
    }

    /** p2p_peer_start_quic. */
    method StartQuicConnection(subscriber: bool, allocOk: bool, connectOk: bool) returns (rc: int, calls: seq<Call>)
      modifies this
      ensures (Abs(), calls) == StartQuic(old(Abs()), subscriber, allocOk, connectOk)
      ensures rc == 0 || rc == -1
      ensures rc == -1 <==>
              && old(state) < QUIC_HANDSHAKING
              && ((!old(moqUserSession) && !allocOk) || (subscriber && !connectOk))
    {
      calls := [];
      if state >= QUIC_HANDSHAKING {
        return 0, calls;
      }
      queued := 0;
      moq := NO_MOQ;
      if !moqUserSession {
        if !allocOk {
          return -1, calls;
        }
        moqUserSession := true;
      }
      if subscriber {
        state := QUIC_HANDSHAKING;
        calls := [Connects];
        if !connectOk {
          state := FAILED;
          return -1, calls;
        }
      }
      return 0, calls;
    }

    /** p2p_engine_remove_peer, for this peer. */
    method Vacate() returns (calls: seq<Call>)
      modifies this
      ensures (Abs(), calls) == Remove(old(Abs()))
      ensures state == IDLE && !agent && conn.None? && moq == NO_MOQ && queued == 0
      ensures calls == if old(conn).Some? then [Closes] else []
    {
      calls := if conn.Some? then [Closes] else [];
      conn := None;
      agent := false;
      queued := 0;
      moq := NO_MOQ;
      state := IDLE;
    }

    /** p2p_engine_add_peer, for the slot it has chosen: false when the ICE agent or the user
        session cannot be had. */
    method Occupy(agentOk: bool, allocOk: bool) returns (ok: bool)
      requires Vacant(Abs())
      modifies this
      ensures Abs() == Add(old(Abs()), agentOk, allocOk)
      ensures ok <==> agentOk && (old(moqUserSession) || allocOk)
      ensures Abs() == if ok then old(Abs()).(agent := true, userSession := true) else old(Abs())
    {
      if !agentOk {
        return false;
      }
      agent := true;
      if !moqUserSession {
        if !allocOk {
          agent := false;
          return false;
        }
        moqUserSession := true;
      }
      return true;
    }

    /** One peer's turn in process_quic_start. */
    method StartTurn(subscriber: bool, allocOk: bool, connectOk: bool) returns (calls: seq<Call>)
      modifies this
      ensures (Abs(), calls) == Start(old(Abs()), subscriber, allocOk, connectOk)
    {
      calls := [];
      if !needsQuicStart {
        return;
      }
      needsQuicStart := false;
      if state < ICE_CONNECTED {
        return;
      }
      var _, made := StartQuicConnection(subscriber, allocOk, connectOk);
      assert calls + made == made;
      calls := calls + made;
    }

    /** One peer's turn in a publisher's process_manual_idle_check. */
    method IdleTurn(now: u64) returns (calls: seq<Call>)
      modifies this
      ensures (Abs(), calls) == Next(old(Abs()), false, IdlePass(now))
    {
      calls := [];
      if state != QUIC_CONNECTED || conn.None? {
        return;
      }
      var last := lastIceRecvUs;
      if last == 0 || last > now {
        return;
      }
      if now - last > IDLE_TIMEOUT_US {
        calls := [Closes];
        conn := None;
        state := ICE_CONNECTED;
        lastIceRecvUs := 0;
      }
    }

    /** One peer's turn in process_quic_restart. */
    method RestartTurn(subscriber: bool, iceUp: bool, allocOk: bool, connectOk: bool) returns (calls: seq<Call>)
      modifies this
      ensures (Abs(), calls) == Restart(old(Abs()), subscriber, iceUp, allocOk, connectOk)
    {
      calls := [];
      if needsIceRestart {
        needsIceRestart := false;
        needsQuicRestart := false;
        calls := calls + [AsksIceRestart];
        assert calls == [AsksIceRestart];
        return;
      }
      if needsQuicRestart && state == ICE_CONNECTED {
        if agent {
          if !iceUp {
            needsQuicRestart := false;
            needsIceRestart := true;
            return;
          }
        }
        needsQuicRestart := false;
        var _, made := StartQuicConnection(subscriber, allocOk, connectOk);
        assert calls + made == made;
        calls := calls + made;
      }
    }
  }

  /** The calls a pass has made for peer i, out of those for all peers. */
  function CallsOf(log: seq<(nat, Call)>, i: nat): seq<Call> {
    if log == [] then []
    else CallsOf(log[..|log| - 1], i) + if log[|log| - 1].0 == i then [log[|log| - 1].1] else []
  }

  function Tagged(i: nat, calls: seq<Call>): seq<(nat, Call)> {
    seq(|calls|, k requires 0 <= k < |calls| => (i, calls[k]))
  }

  lemma {:induction false} CallsOfTagged(log: seq<(nat, Call)>, i: nat, calls: seq<Call>, j: nat)
    ensures CallsOf(log + Tagged(i, calls), j) == CallsOf(log, j) + if i == j then calls else []
  {
    if calls == [] {
      assert log + Tagged(i, calls) == log;
    } else {
      var n := |calls| - 1;
      CallsOfTagged(log, i, calls[..n], j);
      var all := log + Tagged(i, calls);
      assert all[..|all| - 1] == log + Tagged(i, calls[..n]);
    }
  }

  lemma {:induction false} LogCalls(log: seq<(nat, Call)>, i: nat, calls: seq<Call>)
    ensures forall j: nat :: j != i ==> CallsOf(log + Tagged(i, calls), j) == CallsOf(log, j)
    ensures CallsOf(log, i) == [] ==> CallsOf(log + Tagged(i, calls), i) == calls
  {
    forall j: nat ensures CallsOf(log + Tagged(i, calls), j) == CallsOf(log, j) + if i == j then calls else [] {
      CallsOfTagged(log, i, calls, j);
    }
    forall j: nat | j != i ensures CallsOf(log + Tagged(i, calls), j) == CallsOf(log, j) {
      assert CallsOf(log, j) + [] == CallsOf(log, j);
    }
    assert [] + calls == calls;
  }

  lemma {:induction false} LoggedIffCalled(log: seq<(nat, Call)>, i: nat, call: Call)
    ensures (i, call) in log <==> call in CallsOf(log, i)
  {
    if log == [] {
    } else {
      LoggedIffCalled(log[..|log| - 1], i, call);
      assert log == log[..|log| - 1] + [log[|log| - 1]];
    }
  }

  /** The engine's passes over its first peer_count slots. */
  class Engine {
    const subscriber: bool
    const peers: seq<Peer>
    var peerCount: nat

    ghost predicate Valid()
      reads this
    {
      && peerCount <= |peers|
      && forall i, j :: 0 <= i < j < |peers| ==> peers[i] != peers[j]
    }

    /** process_quic_start, with a log of the calls it makes. */
    method ProcessQuicStart(allocOk: seq<bool>, connectOk: seq<bool>) returns (log: seq<(nat, Call)>)
      requires Valid() && |allocOk| == |connectOk| == |peers|
      modifies peers
      ensures forall i :: 0 <= i < |peers| ==>
                (peers[i].Abs(), CallsOf(log, i)) ==
                if i < peerCount then Next(old(peers[i].Abs()), subscriber, StartPass(allocOk[i], connectOk[i]))
                else (old(peers[i].Abs()), [])
    {
      log := [];
      for i := 0 to peerCount
        invariant forall j :: 0 <= j < |peers| ==>
                    (peers[j].Abs(), CallsOf(log, j)) ==
                    if j < i then Next(old(peers[j].Abs()), subscriber, StartPass(allocOk[j], connectOk[j]))
                    else (old(peers[j].Abs()), [])
      {
        var calls := peers[i].StartTurn(subscriber, allocOk[i], connectOk[i]);
        LogCalls(log, i, calls);
        log := log + Tagged(i, calls);
      }
    }

    /** process_quic_restart, with a log of the calls it makes: for no peer does it both
        connect and ask for an ICE restart. */
    method ProcessQuicRestart(iceUp: seq<bool>, allocOk: seq<bool>, connectOk: seq<bool>)
      returns (log: seq<(nat, Call)>)
      requires Valid() && |iceUp| == |allocOk| == |connectOk| == |peers|
      modifies peers
      ensures forall i :: 0 <= i < |peers| ==>
                (peers[i].Abs(), CallsOf(log, i)) ==
                if i < peerCount
                then Next(old(peers[i].Abs()), subscriber, RestartPass(iceUp[i], allocOk[i], connectOk[i]))
                else (old(peers[i].Abs()), [])
      ensures forall i :: 0 <= i < |peers| ==> !((i, Connects) in log && (i, AsksIceRestart) in log)
    {
      log := [];
      for i := 0 to peerCount
        invariant forall j :: 0 <= j < |peers| ==>
                    (peers[j].Abs(), CallsOf(log, j)) ==
                    if j < i then Next(old(peers[j].Abs()), subscriber, RestartPass(iceUp[j], allocOk[j], connectOk[j]))
                    else (old(peers[j].Abs()), [])
      {
        var calls := peers[i].RestartTurn(subscriber, iceUp[i], allocOk[i], connectOk[i]);
        LogCalls(log, i, calls);
        log := log + Tagged(i, calls);
      }
      forall i | 0 <= i < |peers| ensures !((i, Connects) in log && (i, AsksIceRestart) in log) {
        LoggedIffCalled(log, i, Connects);
        LoggedIffCalled(log, i, AsksIceRestart);
        if i < peerCount {
          RestartDecision(old(peers[i].Abs()), subscriber, iceUp[i], allocOk[i], connectOk[i]);
        }
      }
    }

    /** process_manual_idle_check: a publisher closes the connection of a peer silent for a
        minute. */
    method ProcessIdle(now: u64) returns (log: seq<(nat, Call)>)
      requires Valid()
      modifies peers
      ensures forall i :: 0 <= i < |peers| ==>
                (peers[i].Abs(), CallsOf(log, i)) ==
                if i < peerCount then Next(old(peers[i].Abs()), subscriber, IdlePass(now))
                else (old(peers[i].Abs()), [])
    {
      log := [];
      if subscriber {
        return;
      }
      for i := 0 to peerCount
        invariant forall j :: 0 <= j < |peers| ==>
                    (peers[j].Abs(), CallsOf(log, j)) ==
                    if j < i then Next(old(peers[j].Abs()), subscriber, IdlePass(now)) else (old(peers[j].Abs()), [])
      {
        var calls := peers[i].IdleTurn(now);
        LogCalls(log, i, calls);
        log := log + Tagged(i, calls);
      }
    }

    /** p2p_engine_add_peer takes the first vacant slot. */
    method AddPeer(agentOk: bool, allocOk: bool) returns (slot: int)
      requires Valid()
      modifies this`peerCount, peers
      ensures Valid() && -1 <= slot < |peers|
      ensures slot >= 0 ==>
                && peerCount == old(peerCount) + 1
                && Vacant(old(peers[slot].Abs())) && (forall j :: 0 <= j < slot ==> !Vacant(old(peers[j].Abs())))
                && peers[slot].Abs() == Add(old(peers[slot].Abs()), agentOk, allocOk) && peers[slot].agent
      ensures slot < 0 ==> peerCount == old(peerCount)
      ensures slot >= 0 ==> old(peerCount) < |peers| && agentOk
      ensures old(peerCount) < |peers| && agentOk && allocOk ==>
                slot >= 0 || forall j :: 0 <= j < |peers| ==> !Vacant(old(peers[j].Abs()))
      ensures forall j :: 0 <= j < |peers| && j != slot ==> peers[j].Abs() == old(peers[j].Abs())
    {
      if peerCount >= |peers| {
        return -1;
      }
      var i := 0;
      while i < |peers| && (peers[i].state != IDLE || peers[i].agent)
        invariant 0 <= i <= |peers| && forall j :: 0 <= j < i ==> !Vacant(peers[j].Abs())
      {
        i := i + 1;
      }
      if i == |peers| {
        return -1;
      }
      var ok := peers[i].Occupy(agentOk, allocOk);
      if !ok {
        return -1;
      }
      peerCount := peerCount + 1;
      return i;
    }

    /** p2p_engine_remove_peer. */
    method RemovePeer(slot: nat) returns (calls: seq<Call>)
      requires Valid() && slot < |peers|
      modifies this`peerCount, peers[slot]
      ensures Valid()
      ensures (peers[slot].Abs(), calls) == Remove(old(peers[slot].Abs()))
      ensures peerCount == if old(peerCount) > 0 then old(peerCount) - 1 else 0
      ensures forall j :: 0 <= j < |peers| && j != slot ==> peers[j].Abs() == old(peers[j].Abs())
    {
      calls := peers[slot].Vacate();
      if peerCount > 0 {
        peerCount := peerCount - 1;
      }
    }
  }
}
