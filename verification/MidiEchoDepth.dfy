/** How many forwards the echo suppression remembers: exactly 64. */
module MidiEchoDepth {
  import opened MidiMediation
  import opened MidiMessages
  import opened MidiRateSkew

  /**
   * Over any run under this policy, a packet of `source` with `n` forwards after it is never forwarded again when
   * the other side returns it within the echo window.
   */
  ghost predicate ReturnsSuppressed(policy: Policy, source: Endpoint, n: nat) {
    forall events, p ::
      FixedPolicy(events) && n < |Run(Fresh(policy), events).log| ==>
      var m := Run(Fresh(policy), events);
      IsReturnOf(policy, m.log[|m.log| - 1 - n], Opposite(source), p) ==> Route(m, Opposite(source), p).1 != Forwarded
  }

  /** Another note than the one that returns. */
  function OtherNote(t: nat): ShortMidiPacket { ShortMidiPacket((0x90, 61, 1), 3, t, 0) }

  function Time(policy: Policy, n: nat): nat { if n == 0 then 0 else Time(policy, n - 1) + policy.rateWindow }

  /** One note, then n others, each a window length after the one before. */
  function NoteThenOthers(policy: Policy, source: Endpoint, n: nat): seq<Event> {
    if n == 0 then [RouteEvent(source, Note(0)), PopEvent(Opposite(source))]
    else NoteThenOthers(policy, source, n - 1)
         + [RouteEvent(source, OtherNote(Time(policy, n))), PopEvent(Opposite(source))]
  }

  ghost predicate NoteIsFirst(m: Mediation, policy: Policy, source: Endpoint, n: nat) {
    && Drained(m, source) && m.policy == policy && |m.log| == n + 1
    && m.log[0] == RoutedMidiPacket(Note(0), source, Opposite(source))
    && (forall i :: 0 < i < |m.log| ==> m.log[i].packet.bytes.1 == 61)
    && WindowOf(m, source).startedAt == Time(policy, n)
    && WindowOf(m, Opposite(source)) == FRESH_WINDOW && OutboxOf(m, source) == Outbox([], 0)
  }

  lemma {:induction false} NoteThenOthersRun(policy: Policy, source: Endpoint, n: nat)
    requires !Mute(policy, source)
    ensures FixedPolicy(NoteThenOthers(policy, source, n))
    ensures NoteIsFirst(Run(Fresh(policy), NoteThenOthers(policy, source, n)), policy, source, n)
  {
    if n == 0 {
      PacketGetsThrough(Fresh(policy), source, Note(0));
      RunPair(Fresh(policy), [], RouteEvent(source, Note(0)), PopEvent(Opposite(source)));
      assert [] + NoteThenOthers(policy, source, 0) == NoteThenOthers(policy, source, 0);
    } else {
      var before, p := NoteThenOthers(policy, source, n - 1), OtherNote(Time(policy, n));
      NoteThenOthersRun(policy, source, n - 1);
      PacketGetsThrough(Run(Fresh(policy), before), source, p);
      RunPair(Fresh(policy), before, RouteEvent(source, p), PopEvent(Opposite(source)));
    }
  }

  /** The note is not among the newest 64 entries any more, and all of those are other notes. */
  lemma NoteIsForgotten(m: Mediation, policy: Policy, source: Endpoint, n: nat)
    requires NoteIsFirst(m, policy, source, n) && n >= 64
    ensures !IsEcho(m, Opposite(source), Note(0))
  {
    var recent := Recent(m.log);
    forall i | 0 <= i < |recent|
      ensures !IsReturnOf(policy, recent[i], Opposite(source), Note(0))
    {
      assert recent[i] == m.log[|m.log| - ECHO_RECORDS + i];
    }
  }

  lemma ForgottenNoteReturns(policy: Policy, source: Endpoint, n: nat)
    requires !Mute(policy, source) && !Mute(policy, Opposite(source)) && n >= 64
    ensures !ReturnsSuppressed(policy, source, n)
  {
    var events := NoteThenOthers(policy, source, n);
    var m := Run(Fresh(policy), events);
    NoteThenOthersRun(policy, source, n);
    NoteIsForgotten(m, policy, source, n);
    GrantedGetsThrough(m, Opposite(source), Note(0));
    assert IsReturnOf(policy, m.log[|m.log| - 1 - n], Opposite(source), Note(0));
  }

  lemma {:induction false} MuteNeverSends(policy: Policy, events: seq<Event>, source: Endpoint)
    requires FixedPolicy(events) && Mute(policy, source)
    ensures var log := Run(Fresh(policy), events).log;
            forall i :: 0 <= i < |log| ==> log[i].target == source
  {
    if events != [] {
      MuteNeverSends(policy, events[..|events| - 1], source);
      FixedPolicyRun(Fresh(policy), events[..|events| - 1]);
    }
  }

  /**
   * A return is certainly suppressed with n forwards since exactly when n is at most 63, or one of the two sides
   * cannot get anything through under the policy.
   */
  lemma SuppressionDepthExactly(policy: Policy, source: Endpoint, n: nat)
    ensures ReturnsSuppressed(policy, source, n)
            <==> n < 64 || Mute(policy, source) || Mute(policy, Opposite(source))
  {
    if n < 64 || Mute(policy, source) || Mute(policy, Opposite(source)) {
      forall events, p | FixedPolicy(events) && n < |Run(Fresh(policy), events).log|
        ensures var m := Run(Fresh(policy), events);
                IsReturnOf(policy, m.log[|m.log| - 1 - n], Opposite(source), p)
                ==> Route(m, Opposite(source), p).1 != Forwarded
      {
        var m := Run(Fresh(policy), events);
        FixedPolicyRun(Fresh(policy), events);
        if IsReturnOf(policy, m.log[|m.log| - 1 - n], Opposite(source), p) {
          NotForwardedAgain(policy, events, source, n, p);
        }
      }
    } else {
      ForgottenNoteReturns(policy, source, n);
    }
  }

  lemma NotForwardedAgain(policy: Policy, events: seq<Event>, source: Endpoint, n: nat, p: ShortMidiPacket)
    requires FixedPolicy(events) && n < |Run(Fresh(policy), events).log|
    requires n < 64 || Mute(policy, source) || Mute(policy, Opposite(source))
    requires var log := Run(Fresh(policy), events).log; IsReturnOf(policy, log[|log| - 1 - n], Opposite(source), p)
    ensures Route(Run(Fresh(policy), events), Opposite(source), p).1 != Forwarded
  {
    var m := Run(Fresh(policy), events);
    FixedPolicyRun(Fresh(policy), events);
    if n < 64 {
      ReturnedPacketIsSuppressed(m, |m.log| - 1 - n, Opposite(source), p);
    } else if Mute(policy, source) {
      MuteNeverSends(policy, events, source);
    }
  }
}
