/** What the mediator computes, stated on values, and what holds over whole runs of it. */
module MidiMediation {
  import opened Bytes
  import opened MidiMessages
  import opened WordArithmetic

  const ECHO_RECORDS: nat := 64
  const QUEUE_CAPACITY: nat := 1024

  datatype RateWindow = RateWindow(startedAt: nat, messages: nat)

  const FRESH_WINDOW: RateWindow := RateWindow(0, 0)

  /** One outgoing queue: everything accepted since reset, and how much of it has been popped. */
  datatype Outbox = Outbox(accepted: seq<RoutedMidiPacket>, popped: nat)

  function Queued(o: Outbox): int { |o.accepted| - o.popped }

  /** `log` holds every forwarded packet since reset, oldest first. */
  datatype Mediation = Mediation(
    policy: Policy,
    transport: Transport,
    toHardware: Outbox,
    toDaw: Outbox,
    hardwareWindow: RateWindow,
    dawWindow: RateWindow,
    log: seq<RoutedMidiPacket>)

  function WindowOf(m: Mediation, source: Endpoint): RateWindow {
    if source.Hardware? then m.hardwareWindow else m.dawWindow
  }

  function OutboxOf(m: Mediation, target: Endpoint): Outbox {
    if target.Hardware? then m.toHardware else m.toDaw
  }

  function StoppedTransport(policy: Policy): Transport {
    Transport(Stopped, policy.transportAuthority, policy.clockAuthority, 0, 0, 0, 0)
  }

  function Fresh(policy: Policy): Mediation {
    Mediation(policy, StoppedTransport(policy), Outbox([], 0), Outbox([], 0), FRESH_WINDOW, FRESH_WINDOW, [])
  }

  /** The newest 64 entries of the log. */
  function Recent(log: seq<RoutedMidiPacket>): seq<RoutedMidiPacket> {
    if |log| <= ECHO_RECORDS then log else log[|log| - ECHO_RECORDS..]
  }

  ghost predicate IsEcho(m: Mediation, source: Endpoint, p: ShortMidiPacket) {
    exists i :: 0 <= i < |Recent(m.log)| && IsReturnOf(m.policy, Recent(m.log)[i], source, p)
  }

  predicate Reopens(policy: Policy, w: RateWindow, now: nat) {
    w.messages == 0 || now < w.startedAt || now - w.startedAt >= policy.rateWindow
  }

  /** A tumbling window: a message outside it (or the first one) opens a new window at its own time. */
  function Consume(policy: Policy, w: RateWindow, now: nat): (RateWindow, bool) {
    if policy.maximumMessagesPerWindow == 0 || policy.rateWindow == 0 then (w, false)
    else if Reopens(policy, w, now) then (RateWindow(now, 1), true)
    else if w.messages >= policy.maximumMessagesPerWindow then (w, false)
    else (w.(messages := w.messages + 1), true)
  }

  /** The data bytes of a valid packet are below 0x80, so joining them by addition is joining them bit by bit. */
  function UpdateTransport(t: Transport, source: Endpoint, p: ShortMidiPacket): Transport {
    var status := p.bytes.0;
    if status == 0xF8 then t.(clockPulses := (t.clockPulses + 1) % WORD, lastClockTimestamp := p.timestamp)
    else if status == 0xFA then Announced(t.(runState := Running), source, p)
    else if status == 0xFB then Announced(t.(runState := Continuing), source, p)
    else if status == 0xFC then Announced(t.(runState := Stopped), source, p)
    else if status == 0xF2 && p.size == 3 then Announced(t.(songPosition := p.bytes.1 + 128 * p.bytes.2), source, p)
    else t
  }

  function Announced(t: Transport, source: Endpoint, p: ShortMidiPacket): Transport {
    t.(transportAuthority := source, lastTransportTimestamp := p.timestamp)
  }

  predicate DirectionAllowed(policy: Policy, source: Endpoint) {
    if source.Hardware? then policy.hardwareToDaw else policy.dawToHardware
  }

  predicate AuthorityAllows(policy: Policy, source: Endpoint, p: ShortMidiPacket) {
    && (IsClock(p) ==> source == policy.clockAuthority)
    && (IsTransport(p) ==> source == policy.transportAuthority)
  }

  function Charge(m: Mediation, source: Endpoint, w: RateWindow): Mediation {
    if source.Hardware? then m.(hardwareWindow := w) else m.(dawWindow := w)
  }

  function Enqueue(m: Mediation, r: RoutedMidiPacket): Mediation {
    if r.target.Hardware? then m.(toHardware := m.toHardware.(accepted := m.toHardware.accepted + [r]))
    else m.(toDaw := m.toDaw.(accepted := m.toDaw.accepted + [r]))
  }

  /** Budget, then queue; a packet refused by a full queue has still used its rate budget. */
  function Admit(m: Mediation, source: Endpoint, p: ShortMidiPacket): (Mediation, Decision) {
    var (window, granted) := Consume(m.policy, WindowOf(m, source), p.timestamp);
    if !granted then (m, RateLimited)
    else
      var charged := Charge(m, source, window);
      var r := RoutedMidiPacket(p, source, Opposite(source));
      if Queued(OutboxOf(m, r.target)) >= QUEUE_CAPACITY then (charged, QueueFull)
      else (Enqueue(charged, r).(log := m.log + [r], transport := UpdateTransport(m.transport, source, p)), Forwarded)
  }

  /** The new state and the decision. */
  ghost function Route(m: Mediation, source: Endpoint, p: ShortMidiPacket): (Mediation, Decision) {
    if !ValidPacket(p) then (m, InvalidMessage)
    else if !DirectionAllowed(m.policy, source) then (m, DirectionBlocked)
    else if !AuthorityAllows(m.policy, source, p) then (m, AuthorityBlocked)
    else if IsEcho(m, source, p) then (m, EchoSuppressed)
    else Admit(m, source, p)
  }

  /** What a pop of one side hands out: the oldest waiting packet, if any. */
  datatype Popped = Nothing | Packet(packet: RoutedMidiPacket)

  function Front(m: Mediation, target: Endpoint): Popped {
    var o := OutboxOf(m, target);
    if Queued(o) <= 0 then Nothing else Packet(o.accepted[o.popped])
  }

  function Pop(m: Mediation, target: Endpoint): Mediation {
    var o := OutboxOf(m, target);
    if Queued(o) <= 0 then m
    else if target.Hardware? then m.(toHardware := o.(popped := o.popped + 1))
    else m.(toDaw := o.(popped := o.popped + 1))
  }

  function SetPolicy(m: Mediation, policy: Policy): Mediation {
    m.(policy := policy, hardwareWindow := FRESH_WINDOW, dawWindow := FRESH_WINDOW,
       transport := m.transport.(transportAuthority := policy.transportAuthority,
                                 clockAuthority := policy.clockAuthority))
  }

  datatype Event =
    | RouteEvent(source: Endpoint, packet: ShortMidiPacket)
    | PopEvent(target: Endpoint)
    | PolicyEvent(policy: Policy)

  ghost function Step(m: Mediation, e: Event): Mediation {
    match e
    case RouteEvent(source, p) => Route(m, source, p).0
    case PopEvent(target) => Pop(m, target)
    case PolicyEvent(policy) => SetPolicy(m, policy)
  }

  ghost function Run(m: Mediation, events: seq<Event>): Mediation {
    if events == [] then m else Step(Run(m, events[..|events| - 1]), events[|events| - 1])
  }

  lemma RunAppend(m: Mediation, events: seq<Event>, e: Event)
    ensures Run(m, events + [e]) == Step(Run(m, events), e)
  {
    assert (events + [e])[..|events|] == events;
  }

  lemma RunPair(m: Mediation, events: seq<Event>, e: Event, f: Event)
    ensures Run(m, events + [e, f]) == Step(Step(Run(m, events), e), f)
  {
    var one := events + [e];
    RunAppend(m, events, e);
    RunAppend(m, one, f);
    assert events + [e, f] == one + [f];
  }

  lemma {:induction false} RunConcat(m: Mediation, a: seq<Event>, b: seq<Event>)
    ensures Run(m, a + b) == Run(Run(m, a), b)
  {
    if b == [] {
      assert a + b == a;
    } else {
      RunConcat(m, a, b[..|b| - 1]);
      assert (a + b)[..|a + b| - 1] == a + b[..|b| - 1];
    }
  }

  // ------------------------------------------------------------------ conservation

  /** The packets of the log that went to one side, in order. */
  function SentTo(log: seq<RoutedMidiPacket>, target: Endpoint): seq<RoutedMidiPacket> {
    if log == [] then []
    else
      var earlier, r := SentTo(log[..|log| - 1], target), log[|log| - 1];
      if r.target == target then earlier + [r] else earlier
  }

  /** What the log alone says about the transport, under the authorities of the policy in force. */
  function Replay(log: seq<RoutedMidiPacket>, policy: Policy): Transport {
    if log == [] then StoppedTransport(policy)
    else
      var r := log[|log| - 1];
      UpdateTransport(Replay(log[..|log| - 1], policy), r.source, r.packet)
        .(transportAuthority := policy.transportAuthority, clockAuthority := policy.clockAuthority)
  }

  lemma {:induction false} ReplayUnderAnotherPolicy(log: seq<RoutedMidiPacket>, p: Policy, q: Policy)
    ensures Replay(log, q)
         == Replay(log, p).(transportAuthority := q.transportAuthority, clockAuthority := q.clockAuthority)
  {
    if log != [] {
      ReplayUnderAnotherPolicy(log[..|log| - 1], p, q);
    }
  }

  function Clocks(log: seq<RoutedMidiPacket>): nat {
    if log == [] then 0
    else Clocks(log[..|log| - 1]) + (if IsClock(log[|log| - 1].packet) then 1 else 0)
  }

  predicate IsRunCommand(p: ShortMidiPacket) { IsTransport(p) && p.size == 1 }

  predicate IsSongPosition(p: ShortMidiPacket) { IsTransport(p) && p.size == 3 }

  function CommandedState(p: ShortMidiPacket): RunState
    requires IsRunCommand(p)
  {
    if p.bytes.0 == 0xFA then Running else if p.bytes.0 == 0xFB then Continuing else Stopped
  }

  ghost predicate AllValid(log: seq<RoutedMidiPacket>) {
    forall i :: 0 <= i < |log| ==> ValidPacket(log[i].packet)
  }

  /** The pulse count is the number of Timing Clocks in the log, as a 64-bit word. */
  lemma {:induction false} ReplayCountsClocks(log: seq<RoutedMidiPacket>, policy: Policy)
    requires AllValid(log)
    ensures Replay(log, policy).clockPulses == Clocks(log) % WORD
  {
    if log != [] {
      ReplayCountsClocks(log[..|log| - 1], policy);
    }
  }

  /** The run state is that of the last Start, Continue or Stop in the log, or Stopped before any. */
  lemma {:induction false} ReplayRunState(log: seq<RoutedMidiPacket>, policy: Policy, last: int)
    requires AllValid(log)
    requires -1 <= last < |log| && (last >= 0 ==> IsRunCommand(log[last].packet))
    requires forall i :: last < i < |log| ==> !IsRunCommand(log[i].packet)
    ensures Replay(log, policy).runState == if last < 0 then Stopped else CommandedState(log[last].packet)
  {
    if log != [] && last < |log| - 1 {
      ReplayRunState(log[..|log| - 1], policy, last);
    }
  }

  /** The song position is that of the last Song Position Pointer in the log: low seven bits first. */
  lemma {:induction false} ReplaySongPosition(log: seq<RoutedMidiPacket>, policy: Policy, last: int)
    requires AllValid(log)
    requires -1 <= last < |log| && (last >= 0 ==> IsSongPosition(log[last].packet))
    requires forall i :: last < i < |log| ==> !IsSongPosition(log[i].packet)
    ensures Replay(log, policy).songPosition
         == if last < 0 then 0 else log[last].packet.bytes.1 + 128 * log[last].packet.bytes.2
  {
    if log != [] && last < |log| - 1 {
      ReplaySongPosition(log[..|log| - 1], policy, last);
    }
  }

  /** The clock timestamp is that of the last Timing Clock in the log, or 0 before any. */
  lemma {:induction false} ReplayLastClock(log: seq<RoutedMidiPacket>, policy: Policy, last: int)
    requires AllValid(log)
    requires -1 <= last < |log| && (last >= 0 ==> log[last].packet.bytes.0 == 0xF8)
    requires forall i :: last < i < |log| ==> log[i].packet.bytes.0 != 0xF8
    ensures Replay(log, policy).lastClockTimestamp == if last < 0 then 0 else log[last].packet.timestamp
  {
    if log != [] && last < |log| - 1 {
      ReplayLastClock(log[..|log| - 1], policy, last);
    }
  }

  /** Start, Continue, Stop and Song Position Pointer. */
  predicate IsTransportStatus(status: Byte) { status in {0xFA, 0xFB, 0xFC, 0xF2} }

  /** The transport timestamp is that of the last transport message in the log, or 0 before any. */
  lemma {:induction false} ReplayLastTransport(log: seq<RoutedMidiPacket>, policy: Policy, last: int)
    requires AllValid(log)
    requires -1 <= last < |log| && (last >= 0 ==> IsTransportStatus(log[last].packet.bytes.0))
    requires forall i :: last < i < |log| ==> !IsTransportStatus(log[i].packet.bytes.0)
    ensures Replay(log, policy).lastTransportTimestamp == if last < 0 then 0 else log[last].packet.timestamp
  {
    if log != [] && last < |log| - 1 {
      ReplayLastTransport(log[..|log| - 1], policy, last);
    }
  }

  ghost predicate OutboxMatches(o: Outbox, log: seq<RoutedMidiPacket>, target: Endpoint) {
    && o.popped <= |o.accepted|
    && Queued(o) <= 1024
    && o.accepted == SentTo(log, target)
  }

  /** The transport is the replay of the log, under the authorities of the policy. */
  ghost predicate TransportMatches(t: Transport, log: seq<RoutedMidiPacket>, policy: Policy) {
    && t == Replay(log, policy)
    && t.transportAuthority == policy.transportAuthority && t.clockAuthority == policy.clockAuthority
    && t.songPosition < 16384
  }

  ghost predicate AllSound(log: seq<RoutedMidiPacket>) {
    forall i :: 0 <= i < |log| ==> ValidPacket(log[i].packet) && log[i].target == Opposite(log[i].source)
  }

  /** Nothing is lost, duplicated or reordered, and the transport state is what the log says. */
  ghost predicate Conserved(m: Mediation) {
    && OutboxMatches(m.toHardware, m.log, Hardware)
    && OutboxMatches(m.toDaw, m.log, Daw)
    && TransportMatches(m.transport, m.log, m.policy)
    && AllSound(m.log)
  }

  lemma ForwardedMatches(log: seq<RoutedMidiPacket>, o: Outbox, target: Endpoint, r: RoutedMidiPacket)
    requires OutboxMatches(o, log, target)
    requires r.target == target ==> Queued(o) < QUEUE_CAPACITY
    ensures OutboxMatches(if r.target == target then o.(accepted := o.accepted + [r]) else o, log + [r], target)
  {
    assert (log + [r])[..|log|] == log;
  }

  lemma TransportForwarded(t: Transport, log: seq<RoutedMidiPacket>, policy: Policy, r: RoutedMidiPacket)
    requires TransportMatches(t, log, policy)
    requires ValidPacket(r.packet) && AuthorityAllows(policy, r.source, r.packet)
    ensures TransportMatches(UpdateTransport(t, r.source, r.packet), log + [r], policy)
  {
    assert (log + [r])[..|log|] == log;
  }

  /** What forwarding a packet does to the mediator, whatever happens to the rate windows. */
  predicate Forwards(m: Mediation, t: Mediation, r: RoutedMidiPacket) {
    && t.log == m.log + [r] && t.policy == m.policy
    && t.transport == UpdateTransport(m.transport, r.source, r.packet)
    && t.toHardware == (if r.target == Hardware then m.toHardware.(accepted := m.toHardware.accepted + [r])
                        else m.toHardware)
    && t.toDaw == (if r.target == Daw then m.toDaw.(accepted := m.toDaw.accepted + [r]) else m.toDaw)
    && Queued(OutboxOf(m, r.target)) < QUEUE_CAPACITY
  }

  lemma ForwardConserves(m: Mediation, t: Mediation, r: RoutedMidiPacket)
    requires Conserved(m) && Forwards(m, t, r)
    requires ValidPacket(r.packet) && AuthorityAllows(m.policy, r.source, r.packet) && r.target == Opposite(r.source)
    ensures Conserved(t)
  {
    ForwardedMatches(m.log, m.toHardware, Hardware, r);
    ForwardedMatches(m.log, m.toDaw, Daw, r);
    TransportForwarded(m.transport, m.log, m.policy, r);
  }

  /** Admitting forwards the packet, or changes nothing but the rate windows. */
  lemma AdmitForwards(m: Mediation, source: Endpoint, p: ShortMidiPacket)
    ensures var (t, decision) := Admit(m, source, p);
            if decision == Forwarded then Forwards(m, t, RoutedMidiPacket(p, source, Opposite(source)))
            else t == m.(hardwareWindow := t.hardwareWindow, dawWindow := t.dawWindow)
  {
  }

  lemma WindowsDoNotMatter(m: Mediation, hardware: RateWindow, daw: RateWindow)
    requires Conserved(m)
    ensures Conserved(m.(hardwareWindow := hardware, dawWindow := daw))
  {
  }

  lemma AdmitConserves(m: Mediation, source: Endpoint, p: ShortMidiPacket)
    requires Conserved(m) && ValidPacket(p) && AuthorityAllows(m.policy, source, p)
    ensures Conserved(Admit(m, source, p).0)
  {
    var (t, decision) := Admit(m, source, p);
    AdmitForwards(m, source, p);
    if decision == Forwarded {
      ForwardConserves(m, t, RoutedMidiPacket(p, source, Opposite(source)));
    } else {
      WindowsDoNotMatter(m, t.hardwareWindow, t.dawWindow);
    }
  }

  lemma RouteConserves(m: Mediation, source: Endpoint, p: ShortMidiPacket)
    requires Conserved(m)
    ensures Conserved(Route(m, source, p).0)
  {
    if ValidPacket(p) && AuthorityAllows(m.policy, source, p) {
      AdmitConserves(m, source, p);
    }
  }

  lemma StepConserves(m: Mediation, e: Event)
    requires Conserved(m)
    ensures Conserved(Step(m, e))
  {
    match e
    case RouteEvent(source, p) => RouteConserves(m, source, p);
    case PopEvent(_) =>
    case PolicyEvent(policy) => ReplayUnderAnotherPolicy(m.log, m.policy, policy);
  }

  /** Conservation over every run of routing, popping and policy changes. */
  lemma {:induction false} RunConserves(policy: Policy, events: seq<Event>)
    ensures Conserved(Run(Fresh(policy), events))
  {
    if events != [] {
      RunConserves(policy, events[..|events| - 1]);
      StepConserves(Run(Fresh(policy), events[..|events| - 1]), events[|events| - 1]);
    }
  }

  /** The packets that the pops of one side hand out along a run, in order. */
  ghost function Handed(m: Mediation, events: seq<Event>, target: Endpoint): seq<RoutedMidiPacket> {
    if events == [] then []
    else
      var before, e := events[..|events| - 1], events[|events| - 1];
      var earlier := Handed(m, before, target);
      if e == PopEvent(target) && Front(Run(m, before), target).Packet?
      then earlier + [Front(Run(m, before), target).packet]
      else earlier
  }

  /** An event leaves what was accepted before it alone, and only a pop that finds something counts. */
  lemma StepKeepsAccepted(m: Mediation, e: Event, target: Endpoint)
    ensures var o, n := OutboxOf(m, target), OutboxOf(Step(m, e), target);
            && o.accepted <= n.accepted
            && n.popped == o.popped + if e == PopEvent(target) && Front(m, target).Packet? then 1 else 0
  {
  }

  lemma AcceptedIsSent(policy: Policy, events: seq<Event>, target: Endpoint)
    ensures var m := Run(Fresh(policy), events);
            var o := OutboxOf(m, target);
            o.popped <= |o.accepted| && o.accepted == SentTo(m.log, target)
  {
    RunConserves(policy, events);
  }

  lemma {:induction false} HandedIsThePrefix(policy: Policy, events: seq<Event>, target: Endpoint)
    ensures var o := OutboxOf(Run(Fresh(policy), events), target);
            o.popped <= |o.accepted| && Handed(Fresh(policy), events, target) == o.accepted[..o.popped]
  {
    AcceptedIsSent(policy, events, target);
    if events != [] {
      var before, e := events[..|events| - 1], events[|events| - 1];
      var m := Run(Fresh(policy), before);
      var o, n := OutboxOf(m, target), OutboxOf(Step(m, e), target);
      HandedIsThePrefix(policy, before, target);
      StepKeepsAccepted(m, e, target);
      assert n.accepted[..o.popped] == o.accepted[..o.popped];
      if n.popped > o.popped {
        assert n.accepted[..n.popped] == n.accepted[..o.popped] + [o.accepted[o.popped]];
      }
    }
  }

  /** What the pops of one side have handed out, then what still waits there, is what the log sent there, in order. */
  lemma HandedThenQueuedIsTheLog(policy: Policy, events: seq<Event>, target: Endpoint)
    ensures var m := Run(Fresh(policy), events);
            var o := OutboxOf(m, target);
            && o.popped <= |o.accepted|
            && Handed(Fresh(policy), events, target) + o.accepted[o.popped..] == SentTo(m.log, target)
  {
    AcceptedIsSent(policy, events, target);
    HandedIsThePrefix(policy, events, target);
    var o := OutboxOf(Run(Fresh(policy), events), target);
    FrontAndRest(o.accepted, o.popped);
  }

  lemma FrontAndRest<T>(s: seq<T>, k: nat)
    requires k <= |s|
    ensures s[..k] + s[k..] == s
  {
  }

  // ------------------------------------------------------------------ no feedback loop

  /** No entry of the log is the return, within the echo window, of one of the 64 entries before it. */
  ghost predicate EchoFree(policy: Policy, log: seq<RoutedMidiPacket>) {
    forall i, j :: 0 <= i < j < |log| && j - i <= 64 ==>
      !IsReturnOf(policy, log[i], log[j].source, log[j].packet)
  }

  /** A returned packet with at most 63 forwards since the original is never forwarded again. */
  lemma ReturnedPacketIsSuppressed(m: Mediation, i: nat, source: Endpoint, p: ShortMidiPacket)
    requires i < |m.log| && |m.log| - 1 - i <= 63
    requires IsReturnOf(m.policy, m.log[i], source, p)
    ensures Route(m, source, p).1 != Forwarded
    ensures Route(m, source, p).0 == m
    ensures (ValidPacket(p) && DirectionAllowed(m.policy, source) && AuthorityAllows(m.policy, source, p))
              ==> Route(m, source, p).1 == EchoSuppressed
  {
    var k := if |m.log| <= ECHO_RECORDS then i else i - (|m.log| - ECHO_RECORDS);
    assert Recent(m.log)[k] == m.log[i];
  }

  lemma StepKeepsEchoFree(m: Mediation, e: Event)
    requires EchoFree(m.policy, m.log) && !e.PolicyEvent?
    ensures EchoFree(m.policy, Step(m, e).log)
  {
    var t := Step(m, e);
    if e.RouteEvent? && t.log != m.log {
      var n := |m.log|;
      forall i | 0 <= i < n && n - i <= ECHO_RECORDS
        ensures !IsReturnOf(m.policy, m.log[i], e.source, e.packet)
      {
        if IsReturnOf(m.policy, m.log[i], e.source, e.packet) {
          ReturnedPacketIsSuppressed(m, i, e.source, e.packet);
        }
      }
    }
  }

  ghost predicate FixedPolicy(events: seq<Event>) {
    forall i :: 0 <= i < |events| ==> !events[i].PolicyEvent?
  }

  lemma {:induction false} FixedPolicyRun(m: Mediation, events: seq<Event>)
    requires FixedPolicy(events)
    ensures Run(m, events).policy == m.policy
  {
    if events != [] {
      FixedPolicyRun(m, events[..|events| - 1]);
    }
  }

  /** Over any run under one policy the forwarded traffic contains no echo of itself. */
  lemma {:induction false} RunIsEchoFree(policy: Policy, events: seq<Event>)
    requires FixedPolicy(events)
    ensures EchoFree(policy, Run(Fresh(policy), events).log)
  {
    if events != [] {
      var before := events[..|events| - 1];
      RunIsEchoFree(policy, before);
      FixedPolicyRun(Fresh(policy), before);
      StepKeepsEchoFree(Run(Fresh(policy), before), events[|events| - 1]);
    }
  }

  // ------------------------------------------------------------------ the policy is obeyed

  /** The side may send at all. */
  predicate MaySend(policy: Policy, source: Endpoint) {
    (source == Hardware && policy.hardwareToDaw) || (source == Daw && policy.dawToHardware)
  }

  /** The side may send this status: clock and transport need their authority. */
  predicate MaySendStatus(policy: Policy, source: Endpoint, status: Byte) {
    && (status == 0xF8 ==> source == policy.clockAuthority)
    && (IsTransportStatus(status) ==> source == policy.transportAuthority)
  }

  lemma AuthorityIsByStatus(policy: Policy, source: Endpoint, p: ShortMidiPacket)
    requires ValidPacket(p)
    ensures DirectionAllowed(policy, source) <==> MaySend(policy, source)
    ensures AuthorityAllows(policy, source, p) <==> MaySendStatus(policy, source, p.bytes.0)
  {
  }

  predicate Permitted(policy: Policy, r: RoutedMidiPacket) {
    && ValidPacket(r.packet) && MaySend(policy, r.source) && MaySendStatus(policy, r.source, r.packet.bytes.0)
    && r.source != r.target
  }

  /** Over any run under one policy everything forwarded is valid, goes a permitted way and has the authority. */
  lemma {:induction false} RunObeysPolicy(policy: Policy, events: seq<Event>, i: nat)
    requires FixedPolicy(events)
    requires i < |Run(Fresh(policy), events).log|
    ensures Permitted(policy, Run(Fresh(policy), events).log[i])
  {
    if events != [] {
      var before := events[..|events| - 1];
      FixedPolicyRun(Fresh(policy), before);
      if i < |Run(Fresh(policy), before).log| {
        RunObeysPolicy(policy, before, i);
      }
    }
  }
}
