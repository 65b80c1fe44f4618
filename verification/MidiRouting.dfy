/** What becomes of a packet, told from what has happened and not from the state of the mediator. */
module MidiRouting {
  import opened MidiMediation
  import opened MidiMessages
  import opened MidiRateBound
  import opened MidiRateSkew

  /** The packet is a short message of MIDI 1.0 that this path carries. */
  predicate IsMidi(p: ShortMidiPacket) {
    && DataBytes(p.bytes.0) >= 0
    && p.size == 1 + DataBytes(p.bytes.0)
    && forall i :: 1 <= i < p.size ==> ByteAt(p, i) < 0x80
  }

  /** The packet repeats, byte for byte, one that the other side sent, no later than the echo window allows. */
  predicate Repeats(policy: Policy, r: RoutedMidiPacket, source: Endpoint, p: ShortMidiPacket)
    requires p.size <= 3
  {
    && r.source != source && r.packet.size == p.size
    && (forall i :: 0 <= i < p.size ==> ByteAt(r.packet, i) == ByteAt(p, i))
    && r.packet.timestamp <= p.timestamp <= r.packet.timestamp + policy.echoWindow
  }

  /** It repeats one of the last 64 forwards. */
  ghost predicate RepeatsRecent(policy: Policy, log: seq<RoutedMidiPacket>, source: Endpoint, p: ShortMidiPacket)
    requires p.size <= 3
  {
    exists i :: 0 <= i < |log| && |log| - 64 <= i && Repeats(policy, log[i], source, p)
  }

  /** The last tumbling window holds the maximum and has not ended. */
  predicate WindowIsFull(policy: Policy, windows: seq<seq<nat>>, now: nat) {
    && windows != []
    && var last := windows[|windows| - 1];
       last != [] && |last| == policy.maximumMessagesPerWindow && now < last[0] + policy.rateWindow
  }

  /**
   * The decision, from the log, the number of packets waiting on the other side and the times at which the source
   * was granted its budget, window by window.
   */
  ghost function DecisionByHistory(policy: Policy, log: seq<RoutedMidiPacket>, waiting: int, windows: seq<seq<nat>>,
                                   source: Endpoint, p: ShortMidiPacket): Decision
  {
    if !IsMidi(p) then InvalidMessage
    else if !MaySend(policy, source) then DirectionBlocked
    else if !MaySendStatus(policy, source, p.bytes.0) then AuthorityBlocked
    else if RepeatsRecent(policy, log, source, p) then EchoSuppressed
    else if policy.maximumMessagesPerWindow == 0 || policy.rateWindow == 0
            || WindowIsFull(policy, windows, p.timestamp) then RateLimited
    else if waiting == 1024 then QueueFull
    else Forwarded
  }

  lemma ReturnIsRepetition(policy: Policy, r: RoutedMidiPacket, source: Endpoint, p: ShortMidiPacket)
    requires ValidPacket(r.packet) && r.target == Opposite(r.source) && p.size <= 3
    ensures IsReturnOf(policy, r, source, p) <==> Repeats(policy, r, source, p)
  {
    SameMessageIsSameBytes(r.packet, p);
  }

  lemma EchoByHistory(m: Mediation, source: Endpoint, p: ShortMidiPacket)
    requires AllSound(m.log) && p.size <= 3
    ensures IsEcho(m, source, p) <==> RepeatsRecent(m.policy, m.log, source, p)
  {
    var recent := Recent(m.log);
    var base := |m.log| - |recent|;
    if i :| 0 <= i < |recent| && IsReturnOf(m.policy, recent[i], source, p) {
      assert recent[i] == m.log[base + i];
      ReturnIsRepetition(m.policy, m.log[base + i], source, p);
    }
    if i :| 0 <= i < |m.log| && |m.log| - 64 <= i && Repeats(m.policy, m.log[i], source, p) {
      assert recent[i - base] == m.log[i];
      ReturnIsRepetition(m.policy, m.log[i], source, p);
    }
  }

  lemma {:induction false} BudgetByHistory(policy: Policy, events: seq<Event>, source: Endpoint, now: nat)
    requires FixedPolicy(events) && TimesAdvance(events, source) && LatestTime(events, source) <= now
    ensures var windows := BudgetAlong(Fresh(policy), events, source).windows;
            Consume(policy, WindowOf(Run(Fresh(policy), events), source), now).1
            <==> policy.maximumMessagesPerWindow > 0 && policy.rateWindow > 0 && !WindowIsFull(policy, windows, now)
  {
    var b := BudgetAlong(Fresh(policy), events, source);
    BudgetFollowsRun(Fresh(policy), events, source, 0, 0);
    if policy.maximumMessagesPerWindow > 0 && policy.rateWindow > 0 {
      RefusedExactlyWhenFull(policy, b, LatestTime(events, source), now);
    }
  }

  lemma {:induction false} WaitingByHistory(policy: Policy, events: seq<Event>, target: Endpoint)
    ensures var m := Run(Fresh(policy), events);
            var waiting := |SentTo(m.log, target)| - |Handed(Fresh(policy), events, target)|;
            Queued(OutboxOf(m, target)) == waiting <= 1024
  {
    RunConserves(policy, events);
    AcceptedIsSent(policy, events, target);
    HandedIsThePrefix(policy, events, target);
  }

  lemma {:induction false} LogIsSound(policy: Policy, events: seq<Event>)
    ensures AllSound(Run(Fresh(policy), events).log)
  {
    RunConserves(policy, events);
  }

  lemma {:induction false} DecisionByGates(m: Mediation, source: Endpoint, p: ShortMidiPacket, waiting: int,
                                           windows: seq<seq<nat>>)
    requires AllSound(m.log) && waiting == Queued(OutboxOf(m, Opposite(source))) <= 1024
    requires Consume(m.policy, WindowOf(m, source), p.timestamp).1
             <==> m.policy.maximumMessagesPerWindow > 0 && m.policy.rateWindow > 0
                  && !WindowIsFull(m.policy, windows, p.timestamp)
    ensures Route(m, source, p).1 == DecisionByHistory(m.policy, m.log, waiting, windows, source, p)
    ensures Route(m, source, p).0.log
         == if Route(m, source, p).1 == Forwarded then m.log + [RoutedMidiPacket(p, source, Opposite(source))]
            else m.log
  {
    ValidPacketIsMidi(p);
    if ValidPacket(p) {
      AuthorityIsByStatus(m.policy, source, p);
      EchoByHistory(m, source, p);
    }
  }

  /**
   * After any run under one policy, with times of the source that do not go back, what becomes of its next packet is
   * decided by what has happened: what was forwarded, what has been handed out, and when its budget was granted.
   */
  lemma {:induction false} RouteDecidedByHistory(policy: Policy, events: seq<Event>, source: Endpoint,
                                                 p: ShortMidiPacket)
    requires FixedPolicy(events) && TimesAdvance(events, source) && LatestTime(events, source) <= p.timestamp
    ensures var m := Run(Fresh(policy), events);
            var target := Opposite(source);
            var waiting := |SentTo(m.log, target)| - |Handed(Fresh(policy), events, target)|;
            var windows := BudgetAlong(Fresh(policy), events, source).windows;
            && Route(m, source, p).1 == DecisionByHistory(policy, m.log, waiting, windows, source, p)
            && Route(m, source, p).0.log
                 == if Route(m, source, p).1 == Forwarded then m.log + [RoutedMidiPacket(p, source, target)] else m.log
  {
    var m := Run(Fresh(policy), events);
    LogIsSound(policy, events);
    FixedPolicyRun(Fresh(policy), events);
    BudgetByHistory(policy, events, source, p.timestamp);
    WaitingByHistory(policy, events, Opposite(source));
    DecisionByGates(m, source, p, Queued(OutboxOf(m, Opposite(source))),
                    BudgetAlong(Fresh(policy), events, source).windows);
  }

  // ------------------------------------------------------------------ changing the policy

  /** What a change of policy leaves alone: everything that has been forwarded, and what still waits. */
  lemma PolicyChangeKeeps(m: Mediation, policy: Policy)
    ensures var n := SetPolicy(m, policy);
            && n.policy == policy && n.log == m.log && n.toHardware == m.toHardware && n.toDaw == m.toDaw
            && n.transport.transportAuthority == policy.transportAuthority
            && n.transport.clockAuthority == policy.clockAuthority
  {
  }

  /**
   * A change of policy starts both rate windows afresh: whatever either side had used up, a permitted packet that is
   * no echo gets through, and from there on the rate bound of the new policy holds again.
   */
  lemma PolicyChangeReopensBudgets(m: Mediation, policy: Policy, source: Endpoint, p: ShortMidiPacket,
                                   more: seq<Event>, lo: nat)
    requires Permitted(policy, RoutedMidiPacket(p, source, Opposite(source))) && !Mute(policy, source)
    requires Queued(OutboxOf(m, Opposite(source))) < 1024 && !IsEcho(SetPolicy(m, policy), source, p)
    requires FixedPolicy(more) && TimesAdvance(more, source)
    ensures Route(SetPolicy(m, policy), source, p).1 == Forwarded
    ensures ForwardedIn(Run(SetPolicy(m, policy), more).log, source, lo, lo + policy.rateWindow)
         <= ForwardedIn(m.log, source, lo, lo + policy.rateWindow) + MostPerLength(policy)
  {
    GrantedGetsThrough(SetPolicy(m, policy), source, p);
    RateBound(SetPolicy(m, policy), more, source, lo);
  }
}
