/** How much of the rate bound is left when timestamps go back, and how much of it is reached when they do not. */
module MidiRateSkew {
  import opened MidiMediation
  import opened MidiMessages
  import opened MidiRateBound

  /** A note, played by one side at a time. */
  function Note(t: nat): ShortMidiPacket { ShortMidiPacket((0x90, 60, 1), 3, t, 0) }

  /** k notes at one time, each taken by the other side before the next one. */
  function Burst(source: Endpoint, t: nat, k: nat): seq<Event> {
    if k == 0 then []
    else Burst(source, t, k - 1) + [RouteEvent(source, Note(t)), PopEvent(Opposite(source))]
  }

  /** Valid, and neither clock nor transport: nobody needs an authority to send it. */
  predicate Ordinary(p: ShortMidiPacket) { ValidPacket(p) && !IsClock(p) && !IsTransport(p) }

  /** Only this source has sent, and everything it sent has been taken. */
  ghost predicate Drained(m: Mediation, source: Endpoint) {
    && OutboxOf(m, Opposite(source)).popped == |OutboxOf(m, Opposite(source)).accepted|
    && forall i :: 0 <= i < |m.log| ==> m.log[i].target == Opposite(source)
  }

  /** What the open window already holds of the messages that would count against one at this time. */
  function Held(policy: Policy, w: RateWindow, t: nat): nat {
    if Reopens(policy, w, t) then 0 else w.messages
  }

  function After(policy: Policy, w: RateWindow, t: nat, k: nat): RateWindow {
    if k == 0 then w
    else RateWindow(if Reopens(policy, w, t) then t else w.startedAt, Held(policy, w, t) + k)
  }

  lemma NoEcho(m: Mediation, source: Endpoint, p: ShortMidiPacket)
    requires Drained(m, source)
    ensures !IsEcho(m, source, p)
  {
    var recent := Recent(m.log);
    forall i | 0 <= i < |recent|
      ensures !IsReturnOf(m.policy, recent[i], source, p)
    {
      assert recent[i] in m.log;
    }
  }

  /** An ordinary packet whose budget is granted is forwarded. */
  lemma PacketIsForwarded(m: Mediation, source: Endpoint, p: ShortMidiPacket)
    requires Drained(m, source) && DirectionAllowed(m.policy, source) && Ordinary(p)
    requires Consume(m.policy, WindowOf(m, source), p.timestamp).1
    ensures var n := Step(m, RouteEvent(source, p));
            var r := RoutedMidiPacket(p, source, Opposite(source));
            && n.log == m.log + [r] && n.policy == m.policy
            && OutboxOf(n, r.target) == OutboxOf(m, r.target).(accepted := OutboxOf(m, r.target).accepted + [r])
            && OutboxOf(n, source) == OutboxOf(m, source)
            && WindowOf(n, source) == Consume(m.policy, WindowOf(m, source), p.timestamp).0
            && WindowOf(n, r.target) == WindowOf(m, r.target)
  {
    NoEcho(m, source, p);
  }

  lemma PopDrains(m: Mediation, source: Endpoint)
    requires Queued(OutboxOf(m, Opposite(source))) == 1
    ensures var n := Pop(m, Opposite(source));
            && OutboxOf(n, Opposite(source)).popped == |OutboxOf(n, Opposite(source)).accepted|
            && OutboxOf(n, source) == OutboxOf(m, source)
            && n.log == m.log && n.policy == m.policy
            && WindowOf(n, source) == WindowOf(m, source)
            && WindowOf(n, Opposite(source)) == WindowOf(m, Opposite(source))
  {
  }

  /** Then it is taken by the other side; what comes the other way is left alone. */
  lemma PacketGetsThrough(m: Mediation, source: Endpoint, p: ShortMidiPacket)
    requires Drained(m, source) && DirectionAllowed(m.policy, source) && Ordinary(p)
    requires Consume(m.policy, WindowOf(m, source), p.timestamp).1
    ensures var n := Step(Step(m, RouteEvent(source, p)), PopEvent(Opposite(source)));
            && Drained(n, source) && n.policy == m.policy
            && n.log == m.log + [RoutedMidiPacket(p, source, Opposite(source))]
            && WindowOf(n, source) == Consume(m.policy, WindowOf(m, source), p.timestamp).0
            && WindowOf(n, Opposite(source)) == WindowOf(m, Opposite(source))
            && OutboxOf(n, source) == OutboxOf(m, source)
  {
    PacketIsForwarded(m, source, p);
    PopDrains(Step(m, RouteEvent(source, p)), source);
  }

  lemma CountOneMore(log: seq<RoutedMidiPacket>, r: RoutedMidiPacket, lo: nat, hi: nat)
    ensures ForwardedIn(log + [r], r.source, lo, hi)
         == ForwardedIn(log, r.source, lo, hi) + if lo <= r.packet.timestamp < hi then 1 else 0
  {
    assert (log + [r])[..|log|] == log;
  }

  lemma NextOfBurst(policy: Policy, w: RateWindow, t: nat, k: nat)
    requires policy.rateWindow > 0 && k > 0 && Held(policy, w, t) + k <= policy.maximumMessagesPerWindow
    ensures Consume(policy, After(policy, w, t, k - 1), t) == (After(policy, w, t, k), true)
  {
  }

  /** A burst within the budget gets through whole. */
  lemma {:induction false} BurstGetsThrough(m: Mediation, source: Endpoint, t: nat, k: nat, lo: nat, hi: nat)
    requires Drained(m, source) && DirectionAllowed(m.policy, source) && m.policy.rateWindow > 0
    requires Held(m.policy, WindowOf(m, source), t) + k <= m.policy.maximumMessagesPerWindow
    ensures var n := Run(m, Burst(source, t, k));
            && Drained(n, source) && n.policy == m.policy
            && WindowOf(n, source) == After(m.policy, WindowOf(m, source), t, k)
            && ForwardedIn(n.log, source, lo, hi)
                 == ForwardedIn(m.log, source, lo, hi) + if lo <= t < hi then k else 0
  {
    if k > 0 {
      var before := Burst(source, t, k - 1);
      BurstGetsThrough(m, source, t, k - 1, lo, hi);
      NextOfBurst(m.policy, WindowOf(m, source), t, k);
      PacketGetsThrough(Run(m, before), source, Note(t));
      CountOneMore(Run(m, before).log, RoutedMidiPacket(Note(t), source, Opposite(source)), lo, hi);
      RunPair(m, before, RouteEvent(source, Note(t)), PopEvent(Opposite(source)));
    }
  }

  /** Not a policy change, and, if the source sends here, sent in between. */
  predicate SentBetween(e: Event, source: Endpoint, low: nat, high: nat) {
    !e.PolicyEvent? && (From(e, source) ==> low <= e.packet.timestamp <= high)
  }

  ghost predicate AllSentBetween(events: seq<Event>, source: Endpoint, low: nat, high: nat) {
    forall i :: 0 <= i < |events| ==> SentBetween(events[i], source, low, high)
  }

  lemma {:induction false} BurstEvents(source: Endpoint, t: nat, k: nat)
    ensures AllSentBetween(Burst(source, t, k), source, t, t)
  {
    if k > 0 {
      BurstEvents(source, t, k - 1);
    }
  }

  lemma AppendedTimes(a: seq<Event>, b: seq<Event>, source: Endpoint, lag: nat, high: nat, t: nat)
    requires LagsAtMost(a, source, lag) && AllSentBetween(a, source, 0, high)
    requires AllSentBetween(b, source, t, t) && high <= t + lag
    ensures LagsAtMost(a + b, source, lag)
    ensures AllSentBetween(a + b, source, 0, if t > high then t else high)
  {
    var c := a + b;
    forall i | 0 <= i < |c|
      ensures i < |a| ==> c[i] == a[i] && SentBetween(c[i], source, 0, high)
      ensures i >= |a| ==> SentBetween(c[i], source, t, t)
    {
      assert c[i] == if i < |a| then a[i] else b[i - |a|];
    }
  }

  // ------------------------------------------------------------------ bursts one after another

  datatype Bursts = NoBursts | Then(earlier: Bursts, t: nat, k: nat)

  function Play(source: Endpoint, b: Bursts): seq<Event> {
    match b
    case NoBursts => []
    case Then(earlier, t, k) => Play(source, earlier) + Burst(source, t, k)
  }

  function OpenWindow(policy: Policy, b: Bursts): RateWindow {
    match b
    case NoBursts => FRESH_WINDOW
    case Then(earlier, t, k) => After(policy, OpenWindow(policy, earlier), t, k)
  }

  function Highest(b: Bursts): nat {
    match b
    case NoBursts => 0
    case Then(earlier, t, _) => if t > Highest(earlier) then t else Highest(earlier)
  }

  function Inside(b: Bursts, lo: nat, hi: nat): nat {
    match b
    case NoBursts => 0
    case Then(earlier, t, k) => Inside(earlier, lo, hi) + if lo <= t < hi then k else 0
  }

  /** Every burst is within the budget, and lags by at most so much. */
  predicate Fits(policy: Policy, b: Bursts, lag: nat) {
    match b
    case NoBursts => true
    case Then(earlier, t, k) =>
      && Fits(policy, earlier, lag) && Highest(earlier) <= t + lag
      && Held(policy, OpenWindow(policy, earlier), t) + k <= policy.maximumMessagesPerWindow
  }

  lemma {:induction false} PlayedTimes(source: Endpoint, b: Bursts, policy: Policy, lag: nat)
    requires Fits(policy, b, lag)
    ensures LagsAtMost(Play(source, b), source, lag) && AllSentBetween(Play(source, b), source, 0, Highest(b))
  {
    if b.Then? {
      PlayedTimes(source, b.earlier, policy, lag);
      BurstEvents(source, b.t, b.k);
      AppendedTimes(Play(source, b.earlier), Burst(source, b.t, b.k), source, lag, Highest(b.earlier), b.t);
    }
  }

  lemma PlayedPolicy(source: Endpoint, b: Bursts, policy: Policy, lag: nat)
    requires Fits(policy, b, lag)
    ensures FixedPolicy(Play(source, b))
  {
    var events := Play(source, b);
    PlayedTimes(source, b, policy, lag);
    forall i | 0 <= i < |events|
      ensures !events[i].PolicyEvent?
    {
      assert SentBetween(events[i], source, 0, Highest(b));
    }
  }

  /** Everything in the bursts is forwarded. */
  lemma {:induction false} PlayedIsForwarded(policy: Policy, source: Endpoint, b: Bursts, lag: nat, lo: nat, hi: nat)
    requires Fits(policy, b, lag) && DirectionAllowed(policy, source) && policy.rateWindow > 0
    ensures var m := Run(Fresh(policy), Play(source, b));
            && Drained(m, source) && m.policy == policy && WindowOf(m, source) == OpenWindow(policy, b)
            && ForwardedIn(m.log, source, lo, hi) == Inside(b, lo, hi)
  {
    if b.Then? {
      var m := Run(Fresh(policy), Play(source, b.earlier));
      PlayedIsForwarded(policy, source, b.earlier, lag, lo, hi);
      BurstGetsThrough(m, source, b.t, b.k, lo, hi);
      RunConcat(Fresh(policy), Play(source, b.earlier), Burst(source, b.t, b.k));
    }
  }

  // ------------------------------------------------------------------ the bound is exact

  /** How much of the source one interval of a window length gets, over a run. */
  ghost function InOneLength(policy: Policy, events: seq<Event>, source: Endpoint, lo: nat): nat {
    ForwardedIn(Run(Fresh(policy), events).log, source, lo, lo + policy.rateWindow)
  }

  /** Whatever a source sends under this policy, its times lagging by at most so much, the rate bound holds. */
  ghost predicate BoundHolds(policy: Policy, source: Endpoint, lag: nat) {
    forall events, lo: nat :: FixedPolicy(events) && LagsAtMost(events, source, lag) ==>
      InOneLength(policy, events, source, lo) <= MostPerLength(policy)
  }

  /** Nothing from this source can be forwarded at all. */
  predicate Mute(policy: Policy, source: Endpoint) {
    policy.maximumMessagesPerWindow == 0 || policy.rateWindow == 0 || !MaySend(policy, source)
  }

  lemma {:induction false} MuteForwardsNothing(policy: Policy, events: seq<Event>, source: Endpoint, lo: nat, hi: nat)
    requires FixedPolicy(events) && Mute(policy, source)
    ensures ForwardedIn(Run(Fresh(policy), events).log, source, lo, hi) == 0
  {
    if events != [] {
      var before := events[..|events| - 1];
      MuteForwardsNothing(policy, before, source, lo, hi);
      FixedPolicyRun(Fresh(policy), before);
      EventEffect(Run(Fresh(policy), before), events[|events| - 1], source, lo, hi);
    }
  }

  /** Bursts that fit, the window they leave open, their latest time, and how many are in one window length. */
  predicate Good(policy: Policy, b: Bursts, lag: nat, window: RateWindow, highest: nat, lo: nat, inside: nat) {
    && Fits(policy, b, lag) && OpenWindow(policy, b) == window && Highest(b) == highest
    && Inside(b, lo, lo + policy.rateWindow) == inside
  }

  lemma NoneIsGood(policy: Policy, lag: nat, lo: nat)
    ensures Good(policy, NoBursts, lag, FRESH_WINDOW, 0, lo, 0)
  {
  }

  lemma OneMore(policy: Policy, b: Bursts, lag: nat, window: RateWindow, highest: nat, lo: nat, inside: nat,
                t: nat, k: nat) returns (more: Bursts)
    requires Good(policy, b, lag, window, highest, lo, inside)
    requires highest <= t + lag && Held(policy, window, t) + k <= policy.maximumMessagesPerWindow
    ensures Good(policy, more, lag, After(policy, window, t, k), if t > highest then t else highest, lo,
                 inside + if lo <= t < lo + policy.rateWindow then k else 0)
  {
    more := Then(b, t, k);
  }

  /** Three full windows within one window length, lagging by one. */
  lemma LaggingBursts(policy: Policy) returns (b: Bursts)
    requires policy.maximumMessagesPerWindow > 0 && policy.rateWindow > 0
    ensures Fits(policy, b, 1) && Inside(b, 0, policy.rateWindow) == 3 * policy.maximumMessagesPerWindow
  {
    var length, most := policy.rateWindow, policy.maximumMessagesPerWindow;
    NoneIsGood(policy, 1, 0);
    if length > 1 {
      b := OneMore(policy, NoBursts, 1, FRESH_WINDOW, 0, 0, 0, 1, most);
      b := OneMore(policy, b, 1, RateWindow(1, most), 1, 0, most, 0, most);
      b := OneMore(policy, b, 1, RateWindow(0, most), 1, 0, 2 * most, length, 1);
      b := OneMore(policy, b, 1, RateWindow(length, 1), length, 0, 2 * most, length - 1, most);
    } else {
      b := OneMore(policy, NoBursts, 1, FRESH_WINDOW, 0, 0, 0, 0, most);
      b := OneMore(policy, b, 1, RateWindow(0, most), 0, 0, most, 1, 1);
      b := OneMore(policy, b, 1, RateWindow(1, 1), 1, 0, most, 0, most);
      b := OneMore(policy, b, 1, RateWindow(0, most), 1, 0, 2 * most, 1, 1);
      b := OneMore(policy, b, 1, RateWindow(1, 1), 1, 0, 2 * most, 0, most);
    }
  }

  lemma LagBreaksTheBound(policy: Policy, source: Endpoint, lag: nat)
    requires lag > 0 && !Mute(policy, source)
    ensures !BoundHolds(policy, source, lag)
  {
    var b := LaggingBursts(policy);
    PlayedTimes(source, b, policy, 1);
    PlayedPolicy(source, b, policy, 1);
    PlayedIsForwarded(policy, source, b, 1, 0, policy.rateWindow);
    assert InOneLength(policy, Play(source, b), source, 0) > MostPerLength(policy);
  }

  /**
   * The rate bound holds in all runs whose timestamps lag by at most so much exactly when they do not lag at all,
   * or the source cannot send anything.
   */
  lemma RateBoundExactly(policy: Policy, source: Endpoint, lag: nat)
    ensures BoundHolds(policy, source, lag) <==> lag == 0 || Mute(policy, source)
  {
    if lag == 0 || Mute(policy, source) {
      forall events, lo: nat | FixedPolicy(events) && LagsAtMost(events, source, lag)
        ensures InOneLength(policy, events, source, lo) <= MostPerLength(policy)
      {
        if Mute(policy, source) {
          MuteForwardsNothing(policy, events, source, lo, lo + policy.rateWindow);
        } else {
          RateBound(Fresh(policy), events, source, lo);
        }
      }
    } else {
      LagBreaksTheBound(policy, source, lag);
    }
  }

  /** Bursts that do not lag and fill the bound. */
  lemma SteadyBursts(policy: Policy) returns (b: Bursts)
    requires policy.maximumMessagesPerWindow > 0 && policy.rateWindow > 0
    ensures Fits(policy, b, 0) && Inside(b, 1, 1 + policy.rateWindow) == MostPerLength(policy)
  {
    var length, most := policy.rateWindow, policy.maximumMessagesPerWindow;
    NoneIsGood(policy, 0, 1);
    if length == 1 {
      b := OneMore(policy, NoBursts, 0, FRESH_WINDOW, 0, 1, 0, 1, most);
    } else {
      b := OneMore(policy, NoBursts, 0, FRESH_WINDOW, 0, 1, 0, 0, 1);
      b := OneMore(policy, b, 0, RateWindow(0, 1), 0, 1, 0, length - 1, most - 1);
      b := OneMore(policy, b, 0, RateWindow(0, most), length - 1, 1, most - 1, length, most);
    }
  }

  lemma {:induction false} SteadyPlay(policy: Policy, source: Endpoint, b: Bursts)
    requires Fits(policy, b, 0) && DirectionAllowed(policy, source) && policy.rateWindow > 0
    ensures FixedPolicy(Play(source, b)) && TimesAdvance(Play(source, b), source)
    ensures InOneLength(policy, Play(source, b), source, 1) == Inside(b, 1, 1 + policy.rateWindow)
  {
    PlayedTimes(source, b, policy, 0);
    PlayedPolicy(source, b, policy, 0);
    PlayedIsForwarded(policy, source, b, 0, 1, 1 + policy.rateWindow);
  }

  /** With times that do not go back the bound is reached. */
  lemma RateBoundIsReached(policy: Policy, source: Endpoint) returns (events: seq<Event>)
    requires !Mute(policy, source)
    ensures FixedPolicy(events) && TimesAdvance(events, source)
    ensures InOneLength(policy, events, source, 1) == MostPerLength(policy)
  {
    var b := SteadyBursts(policy);
    events := Play(source, b);
    SteadyPlay(policy, source, b);
  }

  // ------------------------------------------------------------------ what is not refused

  lemma {:induction false} SilentSourceKeepsItsWindow(policy: Policy, events: seq<Event>, source: Endpoint)
    requires FixedPolicy(events) && forall i :: 0 <= i < |events| ==> !From(events[i], source)
    ensures WindowOf(Run(Fresh(policy), events), source) == FRESH_WINDOW
  {
    if events != [] {
      var before := events[..|events| - 1];
      SilentSourceKeepsItsWindow(policy, before, source);
      EventEffect(Run(Fresh(policy), before), events[|events| - 1], source, 0, 0);
    }
  }

  lemma WindowStartedBy(policy: Policy, events: seq<Event>, source: Endpoint)
    requires FixedPolicy(events) && TimesAdvance(events, source)
    ensures var w := WindowOf(Run(Fresh(policy), events), source);
            w.messages == 0 || w.startedAt <= LatestTime(events, source)
  {
    BudgetFollowsRun(Fresh(policy), events, source, 0, 0);
  }

  lemma {:induction false} QuietWindowReopens(policy: Policy, events: seq<Event>, source: Endpoint, now: nat)
    requires FixedPolicy(events) && TimesAdvance(events, source)
    requires forall i :: 0 <= i < |events| && From(events[i], source)
                         ==> events[i].packet.timestamp + policy.rateWindow <= now
    ensures Reopens(policy, WindowOf(Run(Fresh(policy), events), source), now)
  {
    if i :| 0 <= i < |events| && From(events[i], source) {
      WindowStartedBy(policy, events, source);
      LatestTimeIsFromRun(events, source);
    } else {
      SilentSourceKeepsItsWindow(policy, events, source);
    }
  }

  lemma GrantedGetsThrough(m: Mediation, source: Endpoint, p: ShortMidiPacket)
    requires Permitted(m.policy, RoutedMidiPacket(p, source, Opposite(source))) && !Mute(m.policy, source)
    requires Reopens(m.policy, WindowOf(m, source), p.timestamp)
    requires Queued(OutboxOf(m, Opposite(source))) < 1024 && !IsEcho(m, source, p)
    ensures Route(m, source, p).1 == Forwarded
  {
  }

  /**
   * After a quiet window length, or at the start, a permitted packet that is not the return of one of the last 64
   * is forwarded whenever its target's queue has room.
   */
  lemma QuietSourceGetsThrough(policy: Policy, events: seq<Event>, source: Endpoint, p: ShortMidiPacket)
    requires FixedPolicy(events) && TimesAdvance(events, source)
    requires Permitted(policy, RoutedMidiPacket(p, source, Opposite(source))) && !Mute(policy, source)
    requires forall i :: 0 <= i < |events| && From(events[i], source)
                         ==> events[i].packet.timestamp + policy.rateWindow <= p.timestamp
    requires var m := Run(Fresh(policy), events);
             Queued(OutboxOf(m, Opposite(source))) < 1024 && !IsEcho(m, source, p)
    ensures Route(Run(Fresh(policy), events), source, p).1 == Forwarded
  {
    FixedPolicyRun(Fresh(policy), events);
    QuietWindowReopens(policy, events, source, p.timestamp);
    GrantedGetsThrough(Run(Fresh(policy), events), source, p);
  }
}
