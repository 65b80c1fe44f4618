/** How much one source can push through the tumbling rate windows, over whole runs. */
module MidiRateBound {
  import opened MidiMediation
  import opened MidiMessages

  /** The history of one source's budget: the state of its window, and the times granted in each window so far. */
  datatype Budget = Budget(window: RateWindow, windows: seq<seq<nat>>)

  const NO_HISTORY: Budget := Budget(FRESH_WINDOW, [])

  /** Asking the budget once; a window that has just opened starts a new group of times. */
  function Grant(policy: Policy, b: Budget, now: nat): Budget {
    var (w, ok) := Consume(policy, b.window, now);
    var n := |b.windows|;
    if !ok then b
    else if w.messages == 1 || n == 0 then Budget(w, b.windows + [[now]])
    else Budget(w, b.windows[..n - 1] + [b.windows[n - 1] + [now]])
  }

  /** One tumbling window: not empty, not above the maximum, and no longer than the window length. */
  ghost predicate Tumbling(policy: Policy, times: seq<nat>) {
    && 0 < |times| <= policy.maximumMessagesPerWindow
    && forall i :: 0 <= i < |times| ==> times[0] <= times[i] < times[0] + policy.rateWindow
  }

  ghost predicate AllTumbling(policy: Policy, windows: seq<seq<nat>>) {
    && (forall k :: 0 <= k < |windows| ==> Tumbling(policy, windows[k]))
    && (forall k :: 0 < k < |windows| ==> windows[k][0] >= windows[k - 1][0] + policy.rateWindow)
  }

  /** The history after asking at times not later than `latest`: the open window is the last group of times. */
  ghost predicate Accounted(policy: Policy, b: Budget, latest: nat) {
    && AllTumbling(policy, b.windows)
    && if b.windows == [] then b.window.messages == 0
       else
         var last := b.windows[|b.windows| - 1];
         b.window == RateWindow(last[0], |last|) && last[0] <= latest
  }

  lemma GrantKeepsAccount(policy: Policy, b: Budget, latest: nat, now: nat)
    requires Accounted(policy, b, latest) && latest <= now
    ensures Accounted(policy, Grant(policy, b, now), now)
  {
    var g := Grant(policy, b, now);
    var n := |b.windows|;
    if g.windows == b.windows + [[now]] {
      assert g.windows[n] == [now];
    } else if g != b {
      assert g.windows[n - 1] == b.windows[n - 1] + [now];
    }
  }

  /** A message is refused exactly when the tumbling window it falls in already holds the maximum. */
  lemma RefusedExactlyWhenFull(policy: Policy, b: Budget, latest: nat, now: nat)
    requires Accounted(policy, b, latest) && latest <= now
    requires policy.maximumMessagesPerWindow > 0 && policy.rateWindow > 0
    ensures !Consume(policy, b.window, now).1 <==>
              && b.windows != []
              && |b.windows[|b.windows| - 1]| == policy.maximumMessagesPerWindow
              && now < b.windows[|b.windows| - 1][0] + policy.rateWindow
  {
    if b.windows != [] {
      assert Tumbling(policy, b.windows[|b.windows| - 1]);
    }
  }

  // ------------------------------------------------------------------ counting inside an interval

  function CountIn(ts: seq<nat>, lo: nat, hi: nat): nat {
    if ts == [] then 0
    else CountIn(ts[..|ts| - 1], lo, hi) + (if lo <= ts[|ts| - 1] < hi then 1 else 0)
  }

  function CountAll(windows: seq<seq<nat>>, lo: nat, hi: nat): nat {
    if windows == [] then 0
    else CountAll(windows[..|windows| - 1], lo, hi) + CountIn(windows[|windows| - 1], lo, hi)
  }

  lemma {:induction false} CountInBounds(ts: seq<nat>, lo: nat, hi: nat)
    ensures CountIn(ts, lo, hi) <= |ts|
    ensures CountIn(ts, lo, hi) > 0 ==> exists i :: 0 <= i < |ts| && lo <= ts[i] < hi
  {
    if ts != [] {
      CountInBounds(ts[..|ts| - 1], lo, hi);
    }
  }

  /** A window whose first time is outside the interval has at most the others inside. */
  lemma {:induction false} CountInWithoutFirst(ts: seq<nat>, lo: nat, hi: nat)
    requires ts != [] && !(lo <= ts[0] < hi)
    ensures CountIn(ts, lo, hi) < |ts|
  {
    if |ts| > 1 {
      CountInWithoutFirst(ts[..|ts| - 1], lo, hi);
    } else {
      assert CountIn(ts[..0], lo, hi) == 0;
    }
  }

  lemma CountInAppend(ts: seq<nat>, t: nat, lo: nat, hi: nat)
    ensures CountIn(ts + [t], lo, hi) == CountIn(ts, lo, hi) + (if lo <= t < hi then 1 else 0)
  {
    assert (ts + [t])[..|ts|] == ts;
  }

  lemma CountAllAppend(windows: seq<seq<nat>>, ts: seq<nat>, lo: nat, hi: nat)
    ensures CountAll(windows + [ts], lo, hi) == CountAll(windows, lo, hi) + CountIn(ts, lo, hi)
  {
    assert (windows + [ts])[..|windows|] == windows;
  }

  /** Windows that end at or before lo contribute nothing. */
  lemma {:induction false} EarlierWindowsAreOutside(policy: Policy, windows: seq<seq<nat>>, lo: nat, hi: nat)
    requires AllTumbling(policy, windows)
    requires windows != [] ==> windows[|windows| - 1][0] + policy.rateWindow <= lo
    ensures CountAll(windows, lo, hi) == 0
  {
    if windows != [] {
      var n := |windows|;
      CountInBounds(windows[n - 1], lo, hi);
      assert Tumbling(policy, windows[n - 1]);
      EarlierWindowsAreOutside(policy, windows[..n - 1], lo, hi);
    }
  }

  /** Windows start a whole length apart, so an interval of one length holds the start of only one. */
  lemma LaterWindowIsOutside(policy: Policy, windows: seq<seq<nat>>, lo: nat)
    requires AllTumbling(policy, windows) && |windows| > 1
    requires lo <= windows[|windows| - 2][0]
    ensures CountIn(windows[|windows| - 1], lo, lo + policy.rateWindow) == 0
  {
    assert Tumbling(policy, windows[|windows| - 1]);
    CountInBounds(windows[|windows| - 1], lo, lo + policy.rateWindow);
  }

  /**
   * The most that one interval of one window length can get: a full window, and all but the first message of another.
   * A window of a single instant has no other messages outside its first instant.
   */
  function MostPerLength(policy: Policy): nat {
    if policy.maximumMessagesPerWindow == 0 then 0
    else if policy.rateWindow == 1 then policy.maximumMessagesPerWindow
    else 2 * policy.maximumMessagesPerWindow - 1
  }

  /** All of a window that is a single instant is where it starts. */
  lemma InstantIsOutside(policy: Policy, times: seq<nat>, lo: nat)
    requires Tumbling(policy, times) && policy.rateWindow == 1 && times[0] < lo
    ensures CountIn(times, lo, lo + policy.rateWindow) == 0
  {
    CountInBounds(times, lo, lo + policy.rateWindow);
  }

  /** An interval of one window length meets at most two tumbling windows, and only one of them from its start. */
  lemma {:induction false} TwoWindowsAtMost(policy: Policy, windows: seq<seq<nat>>, lo: nat)
    requires AllTumbling(policy, windows)
    ensures CountAll(windows, lo, lo + policy.rateWindow) <= MostPerLength(policy)
  {
    var hi := lo + policy.rateWindow;
    var n := |windows|;
    if n > 0 {
      assert Tumbling(policy, windows[n - 1]);
      CountInBounds(windows[n - 1], lo, hi);
      if CountIn(windows[n - 1], lo, hi) == 0 {
        TwoWindowsAtMost(policy, windows[..n - 1], lo);
      } else if n > 1 {
        assert Tumbling(policy, windows[n - 2]);
        CountInBounds(windows[n - 2], lo, hi);
        assert windows[..n - 1][..n - 2] == windows[..n - 2];
        assert CountAll(windows, lo, hi)
            == CountAll(windows[..n - 2], lo, hi) + CountIn(windows[n - 2], lo, hi) + CountIn(windows[n - 1], lo, hi);
        if lo <= windows[n - 2][0] {
          LaterWindowIsOutside(policy, windows, lo);
        } else if policy.rateWindow == 1 {
          InstantIsOutside(policy, windows[n - 2], lo);
        } else {
          CountInWithoutFirst(windows[n - 2], lo, hi);
        }
        EarlierWindowsAreOutside(policy, windows[..n - 2], lo, hi);
      }
    }
  }

  // ------------------------------------------------------------------ the mediator's runs

  /** The packets the log carries from `source` with a timestamp in [lo, hi). */
  function ForwardedIn(log: seq<RoutedMidiPacket>, source: Endpoint, lo: nat, hi: nat): nat {
    if log == [] then 0
    else
      var r := log[|log| - 1];
      ForwardedIn(log[..|log| - 1], source, lo, hi)
      + (if r.source == source && lo <= r.packet.timestamp < hi then 1 else 0)
  }

  /** The event asks the budget of `source`: it passed every test before the budget. */
  ghost predicate Asks(m: Mediation, e: Event, source: Endpoint) {
    && e.RouteEvent? && e.source == source
    && Route(m, e.source, e.packet).1 in {RateLimited, QueueFull, Forwarded}
  }

  /** The budget history of one source along a run. */
  ghost function BudgetAlong(m: Mediation, events: seq<Event>, source: Endpoint): Budget {
    if events == [] then NO_HISTORY
    else
      var before := events[..|events| - 1];
      var e := events[|events| - 1];
      if Asks(Run(m, before), e, source) then Grant(m.policy, BudgetAlong(m, before, source), e.packet.timestamp)
      else BudgetAlong(m, before, source)
  }

  /** Along the run no timestamp of the source lags an earlier one by more than this. */
  ghost predicate LagsAtMost(events: seq<Event>, source: Endpoint, lag: nat) {
    forall i, j :: 0 <= i <= j < |events| && From(events[i], source) && From(events[j], source)
                   ==> events[i].packet.timestamp <= events[j].packet.timestamp + lag
  }

  /** The source's timestamps never go back along the run. */
  ghost predicate TimesAdvance(events: seq<Event>, source: Endpoint) { LagsAtMost(events, source, 0) }

  predicate From(e: Event, source: Endpoint) { e.RouteEvent? && e.source == source }

  ghost function LatestTime(events: seq<Event>, source: Endpoint): nat {
    if events == [] then 0
    else if From(events[|events| - 1], source) then events[|events| - 1].packet.timestamp
    else LatestTime(events[..|events| - 1], source)
  }

  lemma {:induction false} LatestTimeIsFromRun(events: seq<Event>, source: Endpoint)
    ensures LatestTime(events, source) == 0
         || exists i :: 0 <= i < |events| && From(events[i], source)
                        && events[i].packet.timestamp == LatestTime(events, source)
  {
    if events != [] && !From(events[|events| - 1], source) {
      LatestTimeIsFromRun(events[..|events| - 1], source);
    } else if events != [] {
      assert From(events[|events| - 1], source);
    }
  }

  /** The history is the one the mediator's own window is in, and it covers everything forwarded since m. */
  lemma {:induction false} BudgetFollowsRun(m: Mediation, events: seq<Event>, source: Endpoint, lo: nat, hi: nat)
    requires FixedPolicy(events) && TimesAdvance(events, source)
    requires WindowOf(m, source) == FRESH_WINDOW
    ensures var b := BudgetAlong(m, events, source);
            var t := Run(m, events);
            && Accounted(m.policy, b, LatestTime(events, source))
            && t.policy == m.policy
            && WindowOf(t, source) == b.window
            && ForwardedIn(t.log, source, lo, hi) <= ForwardedIn(m.log, source, lo, hi) + CountAll(b.windows, lo, hi)
  {
    FixedPolicyRun(m, events);
    if events != [] {
      var before := events[..|events| - 1];
      var e := events[|events| - 1];
      BudgetFollowsRun(m, before, source, lo, hi);
      LatestTimeIsFromRun(before, source);
      BudgetStep(m, before, e, source, lo, hi);
    }
  }

  /** The effect of one event, on everything but the policy, as the budget of `source` sees it. */
  lemma EventEffect(s: Mediation, e: Event, source: Endpoint, lo: nat, hi: nat)
    requires !e.PolicyEvent?
    ensures var t := Step(s, e);
            var asks := Asks(s, e, source);
            && t.policy == s.policy
            && WindowOf(t, source) == (if asks then Consume(s.policy, WindowOf(s, source), e.packet.timestamp).0
                                       else WindowOf(s, source))
            && ForwardedIn(t.log, source, lo, hi) <= ForwardedIn(s.log, source, lo, hi)
                 + (if asks && Consume(s.policy, WindowOf(s, source), e.packet.timestamp).1
                       && lo <= e.packet.timestamp < hi
                    then 1 else 0)
  {
    var t := Step(s, e);
    if t.log != s.log {
      assert t.log[..|t.log| - 1] == s.log;
    }
  }

  lemma GrantEffect(policy: Policy, b: Budget, latest: nat, now: nat, lo: nat, hi: nat)
    requires Accounted(policy, b, latest)
    ensures var g := Grant(policy, b, now);
            var (w, ok) := Consume(policy, b.window, now);
            && g.window == w
            && CountAll(g.windows, lo, hi) == CountAll(b.windows, lo, hi) + (if ok && lo <= now < hi then 1 else 0)
  {
    var n := |b.windows|;
    CountAllAppend(b.windows, [now], lo, hi);
    CountInAppend([], now, lo, hi);
    assert [] + [now] == [now];
    if n > 0 {
      CountAllAppend(b.windows[..n - 1], b.windows[n - 1] + [now], lo, hi);
      CountInAppend(b.windows[n - 1], now, lo, hi);
    }
  }

  lemma BudgetStep(m: Mediation, before: seq<Event>, e: Event, source: Endpoint, lo: nat, hi: nat)
    requires !e.PolicyEvent? && (From(e, source) ==> LatestTime(before, source) <= e.packet.timestamp)
    requires var b := BudgetAlong(m, before, source);
             var s := Run(m, before);
             && Accounted(m.policy, b, LatestTime(before, source))
             && s.policy == m.policy
             && WindowOf(s, source) == b.window
             && ForwardedIn(s.log, source, lo, hi) <= ForwardedIn(m.log, source, lo, hi) + CountAll(b.windows, lo, hi)
    ensures var events := before + [e];
            var b := BudgetAlong(m, events, source);
            var t := Run(m, events);
            && Accounted(m.policy, b, LatestTime(events, source))
            && WindowOf(t, source) == b.window
            && ForwardedIn(t.log, source, lo, hi) <= ForwardedIn(m.log, source, lo, hi) + CountAll(b.windows, lo, hi)
  {
    var events := before + [e];
    assert events[..|events| - 1] == before && events[|events| - 1] == e;
    var s := Run(m, before);
    var b := BudgetAlong(m, before, source);
    EventEffect(s, e, source, lo, hi);
    if From(e, source) {
      AccountedLater(m.policy, b, LatestTime(before, source), e.packet.timestamp);
      if Asks(s, e, source) {
        GrantEffect(m.policy, b, LatestTime(before, source), e.packet.timestamp, lo, hi);
        GrantKeepsAccount(m.policy, b, LatestTime(before, source), e.packet.timestamp);
      }
    }
  }

  lemma AccountedLater(policy: Policy, b: Budget, latest: nat, later: nat)
    requires Accounted(policy, b, latest) && latest <= later
    ensures Accounted(policy, b, later)
  {
  }

  /**
   * The rate bound. From fresh windows, under one policy and with times that do not go back, a source gets fewer
   * than twice the window maximum through in any interval of one window length, wherever it is placed; no more than
   * the maximum, if that length is a single instant.
   */
  lemma RateBound(m: Mediation, events: seq<Event>, source: Endpoint, lo: nat)
    requires FixedPolicy(events) && TimesAdvance(events, source)
    requires WindowOf(m, source) == FRESH_WINDOW
    ensures ForwardedIn(Run(m, events).log, source, lo, lo + m.policy.rateWindow)
         <= ForwardedIn(m.log, source, lo, lo + m.policy.rateWindow) + MostPerLength(m.policy)
  {
    BudgetFollowsRun(m, events, source, lo, lo + m.policy.rateWindow);
    TwoWindowsAtMost(m.policy, BudgetAlong(m, events, source).windows, lo);
  }
}
