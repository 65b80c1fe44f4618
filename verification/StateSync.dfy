/** Parameter writes as intents with deadlines and revisions, and the two-sided mirror they are meant to settle. */
module StateSync {
  import opened Revisions
  import opened WordArithmetic
  import opened Wrappers

  datatype Evidence = Unavailable | Declared | Observed | Qualified

  function Rank(e: Evidence): nat {
    match e
    case Unavailable => 0
    case Declared => 1
    case Observed => 2
    case Qualified => 3
  }

  predicate AtLeast(actual: Evidence, required: Evidence) { Rank(actual) >= Rank(required) }

  datatype Origin = FromHardware | FromDaw | FromBridge

  datatype Target = ToHardware | ToDaw

  datatype Observation = Observation(
    origin: Origin, value: string, revision: Revision, observedAt: nat, evidence: Evidence)

  datatype Phase = Blocked | Planned | Dispatched | Acknowledged | Rejected | TimedOut | Conflicted

  datatype Intent = Intent(
    id: string, parameterId: string, target: Target, desiredValue: string, expectedRevision: Revision,
    phase: Phase, createdAt: nat, dispatchedAt: nat, deadline: nat,
    acknowledgement: Option<Observation>, diagnostics: seq<string>)

  const MAXIMUM_TIMEOUT: nat := 60_000_000

  // ------------------------------------------------------------------ the four operations on values

  function PlanWrite(id: string, parameterId: string, target: Target, desired: string, expected: Revision,
                     evidence: Evidence, writable: bool, now: nat, timeout: nat): Intent
  {
    var blocked := Intent(id, parameterId, target, desired, expected, Blocked, now, 0, 0, None, []);
    if id == "" || parameterId == "" || desired == "" then blocked.(diagnostics := ["incomplete_parameter_write"])
    else if !writable then blocked.(diagnostics := ["parameter_target_read_only"])
    else if !AtLeast(evidence, Qualified) then blocked.(diagnostics := ["parameter_mapping_unqualified"])
    else if timeout == 0 || timeout > MAXIMUM_TIMEOUT then blocked.(diagnostics := ["invalid_parameter_timeout"])
    else if now > WORD - 1 - timeout then blocked.(diagnostics := ["parameter_deadline_overflow"])
    else blocked.(phase := Planned, deadline := now + timeout, diagnostics := ["parameter_write_planned"])
  }

  function Noted(i: Intent, phase: Phase, code: string): Intent {
    i.(phase := phase, diagnostics := i.diagnostics + [code])
  }

  function Dispatch(i: Intent, actual: Revision, now: nat): Intent {
    if i.phase != Planned then i
    else if i.expectedRevision != actual then Noted(i, Conflicted, "parameter_revision_changed")
    else if now < i.createdAt || now >= i.deadline then Noted(i, TimedOut, "parameter_write_expired_before_dispatch")
    else i.(phase := Dispatched, dispatchedAt := now)
  }

  predicate FromTarget(i: Intent, o: Observation) {
    (i.target.ToHardware? ==> o.origin.FromHardware?) && (i.target.ToDaw? ==> o.origin.FromDaw?)
  }

  predicate CurrentForTarget(i: Intent, o: Observation) {
    && o.revision.session >= i.expectedRevision.session
    && if i.target.ToHardware? then o.revision.hardware >= i.expectedRevision.hardware
       else o.revision.daw >= i.expectedRevision.daw
  }

  function Acknowledge(i: Intent, o: Observation): Intent {
    if i.phase != Dispatched then i
    else if !FromTarget(i, o) then Noted(i, Dispatched, "acknowledgement_wrong_origin")
    else if !AtLeast(o.evidence, Observed) then Noted(i, Dispatched, "acknowledgement_unobserved")
    else if o.observedAt < i.dispatchedAt then Noted(i, Dispatched, "acknowledgement_predates_dispatch")
    else if o.observedAt >= i.deadline then Noted(i, TimedOut, "acknowledgement_after_deadline")
    else if !CurrentForTarget(i, o) then Noted(i, Conflicted, "acknowledgement_stale_revision")
    else if o.value != i.desiredValue then
      Noted(i, Conflicted, "acknowledgement_value_mismatch").(acknowledgement := Some(o))
    else Noted(i, Acknowledged, "parameter_write_acknowledged").(acknowledgement := Some(o))
  }

  predicate Open(i: Intent) { i.phase == Planned || i.phase == Dispatched }

  function Expire(i: Intent, now: nat): Intent {
    if !Open(i) || now < i.deadline then i else Noted(i, TimedOut, "parameter_acknowledgement_timeout")
  }

  // ------------------------------------------------------------------ the intent in place

  /** The record the source mutates by reference. */
  class ParameterWriteIntent {
    const id: string
    const parameterId: string
    const target: Target
    const desiredValue: string
    const expectedRevision: Revision
    const createdAt: nat
    const deadline: nat
    var phase: Phase
    var dispatchedAt: nat
    var acknowledgement: Option<Observation>
    var diagnostics: seq<string>

    function Value(): Intent
      reads this
    {
      Intent(id, parameterId, target, desiredValue, expectedRevision, phase, createdAt, dispatchedAt, deadline,
             acknowledgement, diagnostics)
    }

    constructor (plan: Intent)
      ensures Value() == plan
    {
      id, parameterId, target, desiredValue := plan.id, plan.parameterId, plan.target, plan.desiredValue;
      expectedRevision, createdAt, deadline := plan.expectedRevision, plan.createdAt, plan.deadline;
      phase, dispatchedAt := plan.phase, plan.dispatchedAt;
      acknowledgement, diagnostics := plan.acknowledgement, plan.diagnostics;
    }

    method Note(code: string)
      modifies this`diagnostics
      ensures Value() == old(Value()).(diagnostics := old(diagnostics) + [code])
    {
      diagnostics := diagnostics + [code];
    }

    method DispatchWrite(actual: Revision, now: nat) returns (sent: bool)
      modifies this
      ensures Value() == Dispatch(old(Value()), actual, now)
      ensures sent == (old(phase) == Planned && phase == Dispatched)
    {
      if phase != Planned {
        return false;
      }
      if expectedRevision != actual {
        phase := Conflicted;
        Note("parameter_revision_changed");
        return false;
      }
      if now < createdAt || now >= deadline {
        phase := TimedOut;
        Note("parameter_write_expired_before_dispatch");
        return false;
      }
      phase := Dispatched;
      dispatchedAt := now;
      return true;
    }

    method AcknowledgeWrite(o: Observation) returns (committed: bool)
      modifies this
      ensures Value() == Acknowledge(old(Value()), o)
      ensures committed == (old(phase) == Dispatched && phase == Acknowledged)
    {
      if phase != Dispatched {
        return false;
      }
      if !FromTarget(Value(), o) {
        Note("acknowledgement_wrong_origin");
        return false;
      }
      if !AtLeast(o.evidence, Observed) {
        Note("acknowledgement_unobserved");
        return false;
      }
      if o.observedAt < dispatchedAt {
        Note("acknowledgement_predates_dispatch");
        return false;
      }
      if o.observedAt >= deadline {
        phase := TimedOut;
        Note("acknowledgement_after_deadline");
        return false;
      }
      if !CurrentForTarget(Value(), o) {
        phase := Conflicted;
        Note("acknowledgement_stale_revision");
        return false;
      }
      acknowledgement := Some(o);
      if o.value != desiredValue {
        phase := Conflicted;
        Note("acknowledgement_value_mismatch");
        return false;
      }
      phase := Acknowledged;
      Note("parameter_write_acknowledged");
      return true;
    }

    method ExpireWrite(now: nat) returns (expired: bool)
      modifies this
      ensures Value() == Expire(old(Value()), now)
      ensures expired == (old(Open(Value())) && now >= deadline)
    {
      if phase != Planned && phase != Dispatched {
        return false;
      }
      if now < deadline {
        return false;
      }
      phase := TimedOut;
      Note("parameter_acknowledgement_timeout");
      return true;
    }
  }

  // ------------------------------------------------------------------ safety over runs

  datatype Event = DispatchEvent(actual: Revision, now: nat) | AcknowledgeEvent(o: Observation) | ExpireEvent(now: nat)

  function Step(i: Intent, e: Event): Intent {
    match e
    case DispatchEvent(actual, now) => Dispatch(i, actual, now)
    case AcknowledgeEvent(o) => Acknowledge(i, o)
    case ExpireEvent(now) => Expire(i, now)
  }

  function Run(i: Intent, events: seq<Event>): Intent {
    if events == [] then i else Step(Run(i, events[..|events| - 1]), events[|events| - 1])
  }

  /** What identifies the write never changes. */
  predicate SamePlan(i: Intent, j: Intent) {
    && i.id == j.id && i.parameterId == j.parameterId && i.target == j.target && i.desiredValue == j.desiredValue
    && i.expectedRevision == j.expectedRevision && i.createdAt == j.createdAt && i.deadline == j.deadline
  }

  predicate SentBy(i: Intent, e: Event) {
    e == DispatchEvent(i.expectedRevision, i.dispatchedAt) && i.createdAt <= i.dispatchedAt < i.deadline
  }

  function SideOf(target: Target): Origin { if target == ToHardware then FromHardware else FromDaw }

  /** The observation is of an older session, or of an older state of the target, than the write was planned for. */
  predicate OlderFor(i: Intent, o: Observation) {
    || o.revision.session < i.expectedRevision.session
    || (i.target == ToHardware && o.revision.hardware < i.expectedRevision.hardware)
    || (i.target == ToDaw && o.revision.daw < i.expectedRevision.daw)
  }

  predicate ConfirmedBy(i: Intent, e: Event) {
    && e.AcknowledgeEvent? && i.acknowledgement == Some(e.o)
    && e.o.origin == SideOf(i.target) && e.o.evidence in {Observed, Qualified} && !OlderFor(i, e.o)
    && i.dispatchedAt <= e.o.observedAt < i.deadline
    && e.o.value == i.desiredValue
  }

  ghost predicate Sent(i: Intent, events: seq<Event>) {
    exists d :: 0 <= d < |events| && SentBy(i, events[d])
  }

  /** Dispatched by one event and confirmed by a later one. */
  ghost predicate SentThenConfirmed(i: Intent, events: seq<Event>) {
    exists d, a :: 0 <= d < a < |events| && SentBy(i, events[d]) && ConfirmedBy(i, events[a])
  }

  /** The history that a phase proves. */
  ghost predicate Earned(i: Intent, events: seq<Event>) {
    && (i.phase == Dispatched ==> Sent(i, events))
    && (i.phase == Acknowledged ==> SentThenConfirmed(i, events))
  }

  /** One step keeps the plan, and keeps the time of a dispatch that has happened. */
  lemma StepKeepsPlan(i: Intent, e: Event)
    ensures SamePlan(i, Step(i, e))
    ensures i.phase != Planned ==> Step(i, e).dispatchedAt == i.dispatchedAt
    ensures !Open(i) ==> Step(i, e) == i
  {
    match e
    case DispatchEvent(_, _) =>
    case AcknowledgeEvent(o) => AcknowledgeKeepsPlan(i, o);
    case ExpireEvent(_) =>
  }

  lemma AcknowledgeKeepsPlan(i: Intent, o: Observation)
    ensures SamePlan(i, Acknowledge(i, o)) && Acknowledge(i, o).dispatchedAt == i.dispatchedAt
  {
  }

  lemma StepEarnsDispatch(i: Intent, before: seq<Event>, e: Event)
    requires Earned(i, before) && Step(i, e).phase == Dispatched
    ensures Sent(Step(i, e), before + [e])
  {
    var t, events := Step(i, e), before + [e];
    StepKeepsPlan(i, e);
    if i.phase == Planned {
      assert SentBy(t, events[|before|]);
    } else {
      var d :| 0 <= d < |before| && SentBy(i, before[d]);
      assert SentBy(t, events[d]);
    }
  }

  lemma StepEarnsAcknowledgement(i: Intent, before: seq<Event>, e: Event)
    requires Earned(i, before) && Step(i, e).phase == Acknowledged
    ensures SentThenConfirmed(Step(i, e), before + [e])
  {
    var t, events := Step(i, e), before + [e];
    StepKeepsPlan(i, e);
    if i.phase == Acknowledged {
      var d, a :| 0 <= d < a < |before| && SentBy(i, before[d]) && ConfirmedBy(i, before[a]);
      assert SentBy(t, events[d]) && ConfirmedBy(t, events[a]);
    } else {
      var d :| 0 <= d < |before| && SentBy(i, before[d]);
      assert SentBy(t, events[d]);
      assert ConfirmedBy(t, events[|before|]);
    }
  }

  lemma StepEarns(i: Intent, before: seq<Event>, e: Event)
    requires Earned(i, before)
    ensures Earned(Step(i, e), before + [e])
  {
    if Step(i, e).phase == Dispatched {
      StepEarnsDispatch(i, before, e);
    } else if Step(i, e).phase == Acknowledged {
      StepEarnsAcknowledgement(i, before, e);
    }
  }

  lemma {:induction false} RunEarnsItsPhase(plan: Intent, events: seq<Event>)
    requires plan.phase == Planned || plan.phase == Blocked
    ensures Earned(Run(plan, events), events)
  {
    if events != [] {
      var before := events[..|events| - 1];
      RunEarnsItsPhase(plan, before);
      StepEarns(Run(plan, before), before, events[|events| - 1]);
      assert before + [events[|events| - 1]] == events;
    }
  }

  lemma {:induction false} RunKeepsPlan(plan: Intent, events: seq<Event>)
    ensures SamePlan(plan, Run(plan, events))
  {
    if events != [] {
      RunKeepsPlan(plan, events[..|events| - 1]);
      StepKeepsPlan(Run(plan, events[..|events| - 1]), events[|events| - 1]);
    }
  }

  /**
   * An acknowledged write was dispatched at its expected revision and then confirmed by the target itself,
   * with the desired value, a current revision, and creation <= dispatch <= observation < deadline.
   */
  lemma AcknowledgedWriteIsGenuine(plan: Intent, events: seq<Event>)
    requires plan.phase == Planned || plan.phase == Blocked
    ensures var i := Run(plan, events);
            && SamePlan(plan, i)
            && (i.phase == Acknowledged ==> plan.phase == Planned && SentThenConfirmed(i, events))
  {
    RunKeepsPlan(plan, events);
    RunEarnsItsPhase(plan, events);
    if plan.phase == Blocked {
      ClosedPhasesNeverChange(plan, events);
    }
  }

  // ------------------------------------------------------------------ what each event decides

  lemma RunAppend(i: Intent, events: seq<Event>, e: Event)
    ensures Run(i, events + [e]) == Step(Run(i, events), e)
  {
    assert (events + [e])[..|events|] == events;
  }

  lemma {:induction false} RunConcat(i: Intent, a: seq<Event>, b: seq<Event>)
    ensures Run(i, a + b) == Run(Run(i, a), b)
  {
    if b == [] {
      assert a + b == a;
    } else {
      RunConcat(i, a, b[..|b| - 1]);
      assert (a + b)[..|a + b| - 1] == a + b[..|b| - 1];
    }
  }

  /** An observation that does not bear on a dispatched write: of another side, not observed, or from before. */
  predicate Unrelated(i: Intent, o: Observation) {
    o.origin != SideOf(i.target) || o.evidence in {Unavailable, Declared} || o.observedAt < i.dispatchedAt
  }

  /** What may happen to a dispatched write without changing it. */
  predicate Harmless(i: Intent, e: Event) {
    match e
    case DispatchEvent(_, _) => true
    case AcknowledgeEvent(o) => Unrelated(i, o)
    case ExpireEvent(now) => now < i.deadline
  }

  /** Nothing harmless changes a dispatched write, apart from its diagnostics. */
  lemma {:induction false} HarmlessEventsAreOnlyNoted(i: Intent, events: seq<Event>)
    requires i.phase == Dispatched && forall k :: 0 <= k < |events| ==> Harmless(i, events[k])
    ensures var t := Run(i, events); t == i.(diagnostics := t.diagnostics) && i.diagnostics <= t.diagnostics
  {
    if events != [] {
      HarmlessEventsAreOnlyNoted(i, events[..|events| - 1]);
    }
  }

  /** The outcome of an observation that bears on a dispatched write. */
  predicate DecidedBy(i: Intent, o: Observation, t: Intent) {
    && t.phase == (if o.observedAt >= i.deadline then TimedOut
                   else if OlderFor(i, o) || o.value != i.desiredValue then Conflicted
                   else Acknowledged)
    && t.acknowledgement == (if o.observedAt < i.deadline && !OlderFor(i, o) then Some(o) else i.acknowledgement)
    && t.diagnostics == i.diagnostics + [if o.observedAt >= i.deadline then "acknowledgement_after_deadline"
                                         else if OlderFor(i, o) then "acknowledgement_stale_revision"
                                         else if o.value != i.desiredValue then "acknowledgement_value_mismatch"
                                         else "parameter_write_acknowledged"]
  }

  lemma AcknowledgementDecides(i: Intent, o: Observation)
    requires i.phase == Dispatched && !Unrelated(i, o)
    ensures DecidedBy(i, o, Acknowledge(i, o))
  {
  }

  /**
   * Whatever harmless has happened since the dispatch, the first observation that bears on the write decides it: too
   * late, of an older revision, of another value, or confirmed. One that is in time and current is kept.
   */
  lemma {:induction false} ObservationDecides(i: Intent, events: seq<Event>, o: Observation)
    requires i.phase == Dispatched && forall k :: 0 <= k < |events| ==> Harmless(i, events[k])
    requires !Unrelated(i, o)
    ensures var t := Run(i, events + [AcknowledgeEvent(o)]);
            SamePlan(i, t) && DecidedBy(i.(diagnostics := Run(i, events).diagnostics), o, t)
  {
    var so := Run(i, events);
    HarmlessEventsAreOnlyNoted(i, events);
    RunAppend(i, events, AcknowledgeEvent(o));
    AcknowledgementDecides(so, o);
    AcknowledgeKeepsPlan(so, o);
  }

  /** An observation that does not bear on a dispatched write is noted with the reason. */
  lemma UnrelatedIsNoted(i: Intent, o: Observation)
    requires i.phase == Dispatched && Unrelated(i, o)
    ensures Step(i, AcknowledgeEvent(o)) == i.(diagnostics := i.diagnostics
              + [if o.origin != SideOf(i.target) then "acknowledgement_wrong_origin"
                 else if o.evidence in {Unavailable, Declared} then "acknowledgement_unobserved"
                 else "acknowledgement_predates_dispatch"])
  {
  }

  /** A planned write leaves for its target only at the revision it was planned for, and within its time. */
  lemma DispatchDecides(i: Intent, actual: Revision, now: nat)
    requires i.phase == Planned
    ensures var t := Step(i, DispatchEvent(actual, now));
            && t.phase == (if actual != i.expectedRevision then Conflicted
                           else if i.createdAt <= now < i.deadline then Dispatched
                           else TimedOut)
            && t.dispatchedAt == (if t.phase == Dispatched then now else i.dispatchedAt)
            && t.diagnostics == i.diagnostics + if actual != i.expectedRevision then ["parameter_revision_changed"]
                                                else if i.createdAt <= now < i.deadline then []
                                                else ["parameter_write_expired_before_dispatch"]
  {
  }

  /** Time runs out exactly at the deadline, and only for a write that is planned or dispatched. */
  lemma ExpiryDecides(i: Intent, now: nat)
    ensures var t := Step(i, ExpireEvent(now));
            && t.phase == (if now >= i.deadline && (i.phase == Planned || i.phase == Dispatched) then TimedOut
                           else i.phase)
            && (t.phase == i.phase ==> t == i)
            && (t.phase != i.phase ==> t.diagnostics == i.diagnostics + ["parameter_acknowledgement_timeout"])
  {
  }

  /** Once a phase is closed no later event changes anything. */
  lemma {:induction false} ClosedPhasesNeverChange(i: Intent, events: seq<Event>)
    requires !Open(i)
    ensures Run(i, events) == i
  {
    if events != [] {
      ClosedPhasesNeverChange(i, events[..|events| - 1]);
    }
  }

  /** Some events lead the write to its acknowledgement. */
  ghost predicate CanBeAcknowledged(plan: Intent) {
    exists events :: Run(plan, events).phase == Acknowledged
  }

  lemma PromptConfirmation(plan: Intent)
    requires plan.phase == Planned && plan.createdAt < plan.deadline
    ensures CanBeAcknowledged(plan)
  {
    var now, origin := plan.createdAt, if plan.target.ToHardware? then FromHardware else FromDaw;
    var o := Observation(origin, plan.desiredValue, plan.expectedRevision, now, Observed);
    var sent, confirmed := DispatchEvent(plan.expectedRevision, now), AcknowledgeEvent(o);
    assert [sent, confirmed][..1] == [sent] && [sent][..0] == [];
    assert Run(plan, [sent]) == Dispatch(plan, plan.expectedRevision, now);
    assert Run(plan, [sent, confirmed]).phase == Acknowledged;
  }

  function FaultIf(fault: bool, code: string): seq<string> { if fault then [code] else [] }

  /** Everything that is wrong with a request to write, in the order in which it is looked for. */
  function WriteFaults(id: string, parameterId: string, desired: string, evidence: Evidence, writable: bool,
                       now: nat, timeout: nat): seq<string>
  {
    FaultIf(id == "" || parameterId == "" || desired == "", "incomplete_parameter_write")
    + FaultIf(!writable, "parameter_target_read_only")
    + FaultIf(evidence != Qualified, "parameter_mapping_unqualified")
    + FaultIf(timeout == 0 || timeout > 60_000_000, "invalid_parameter_timeout")
    + FaultIf(now + timeout >= WORD, "parameter_deadline_overflow")
  }

  /** A blocked plan names the first fault, and a plan without one says that it is planned. */
  lemma PlanNamesFirstFault(id: string, parameterId: string, target: Target, desired: string, expected: Revision,
                            evidence: Evidence, writable: bool, now: nat, timeout: nat)
    ensures var plan := PlanWrite(id, parameterId, target, desired, expected, evidence, writable, now, timeout);
            var faults := WriteFaults(id, parameterId, desired, evidence, writable, now, timeout);
            && (plan.phase == Planned <==> faults == [])
            && plan.diagnostics == [if faults == [] then "parameter_write_planned" else faults[0]]
  {
  }

  /**
   * A write as it was asked for can ever be acknowledged exactly if it names its parameter and its value, the
   * target is writable and qualified, and the deadline is in range. Any other request never changes at all.
   */
  lemma WriteCanBeAcknowledgedExactly(id: string, parameterId: string, target: Target, desired: string,
                                      expected: Revision, evidence: Evidence, writable: bool, now: nat, timeout: nat)
    ensures var plan := PlanWrite(id, parameterId, target, desired, expected, evidence, writable, now, timeout);
            var sound := && id != "" && parameterId != "" && desired != "" && writable && evidence == Qualified
                         && 0 < timeout <= 60_000_000 && now + timeout < WORD;
            && plan.id == id && plan.parameterId == parameterId && plan.target == target
            && plan.desiredValue == desired && plan.expectedRevision == expected && plan.createdAt == now
            && (sound ==> plan.deadline == now + timeout)
            && (CanBeAcknowledged(plan) <==> sound)
            && (!sound ==> forall events :: Run(plan, events) == plan)
  {
    var plan := PlanWrite(id, parameterId, target, desired, expected, evidence, writable, now, timeout);
    if plan.phase == Planned {
      PromptConfirmation(plan);
    } else {
      forall events
        ensures Run(plan, events) == plan
      {
        ClosedPhasesNeverChange(plan, events);
      }
    }
  }

  /** After an expiry at or past the deadline nothing stays open, whatever happened before and whatever comes after. */
  lemma ExpiryCloses(plan: Intent, before: seq<Event>, now: nat, after: seq<Event>)
    requires plan.phase == Planned || plan.phase == Blocked
    requires now >= plan.deadline
    ensures !Open(Run(Step(Run(plan, before), ExpireEvent(now)), after))
  {
    RunKeepsPlan(plan, before);
    ClosedPhasesNeverChange(Step(Run(plan, before), ExpireEvent(now)), after);
  }

  // ------------------------------------------------------------------ the mirror

  datatype MirrorState = Unknown | PartiallyObserved | Synchronized | PendingHardware | PendingDaw | Stale | Conflict

  predicate Usable(o: Option<Observation>) { o.Some? && AtLeast(o.value.evidence, Observed) }

  class ParameterMirror {
    var desiredValue: string
    var hardware: Option<Observation>
    var daw: Option<Observation>
    var state: MirrorState

    method Evaluate() returns (result: MirrorState)
      modifies this`state
      ensures result == state == Classify(desiredValue, hardware, daw)
    {
      var hardwareUsable, dawUsable := Usable(hardware), Usable(daw);
      if !hardwareUsable && !dawUsable {
        state := Unknown;
      } else if !hardwareUsable {
        state := if daw.value.value == desiredValue then PendingHardware else PartiallyObserved;
      } else if !dawUsable {
        state := if hardware.value.value == desiredValue then PendingDaw else PartiallyObserved;
      } else if hardware.value.value != daw.value.value {
        if hardware.value.value == desiredValue {
          state := PendingDaw;
        } else if daw.value.value == desiredValue {
          state := PendingHardware;
        } else {
          state := Conflict;
        }
      } else if hardware.value.value != desiredValue {
        state := Stale;
      } else {
        state := Synchronized;
      }
      result := state;
    }
  }

  /** The side shows the desired value / some other value; an unusable observation shows nothing. */
  predicate Settled(desired: string, o: Option<Observation>) { Usable(o) && o.value.value == desired }

  predicate Off(desired: string, o: Option<Observation>) { Usable(o) && o.value.value != desired }

  /** The classification by what each side shows. */
  function Classify(desired: string, hardware: Option<Observation>, daw: Option<Observation>): MirrorState {
    if Settled(desired, hardware) && Settled(desired, daw) then Synchronized
    else if Settled(desired, hardware) then PendingDaw
    else if Settled(desired, daw) then PendingHardware
    else if Off(desired, hardware) && Off(desired, daw) then
      if hardware.value.value == daw.value.value then Stale else Conflict
    else if Off(desired, hardware) || Off(desired, daw) then PartiallyObserved
    else Unknown
  }

  /** The value a side shows: that of an observation with evidence behind it. */
  function Shown(o: Option<Observation>): Option<string> {
    if o.Some? && o.value.evidence in {Observed, Qualified} then Some(o.value.value) else None
  }

  /** What each state says about the two values shown, and that it says so exactly. */
  lemma ClassifyExactly(desired: string, hardware: Option<Observation>, daw: Option<Observation>)
    ensures var state, h, d := Classify(desired, hardware, daw), Shown(hardware), Shown(daw);
            && (state == Synchronized <==> h == d == Some(desired))
            && (state == PendingDaw <==> h == Some(desired) && d != Some(desired))
            && (state == PendingHardware <==> d == Some(desired) && h != Some(desired))
            && (state == Stale <==> h.Some? && h == d && h != Some(desired))
            && (state == Conflict <==> h.Some? && d.Some? && h != d && Some(desired) != h && Some(desired) != d)
            && (state == PartiallyObserved <==> (h.Some? <==> d.None?) && Some(desired) != h && Some(desired) != d)
            && (state == Unknown <==> h.None? && d.None?)
  {
  }

  function Swapped(s: MirrorState): MirrorState {
    if s.PendingHardware? then PendingDaw else if s.PendingDaw? then PendingHardware else s
  }

  /** The two sides are treated alike. */
  lemma ClassifyIsSymmetric(desired: string, hardware: Option<Observation>, daw: Option<Observation>)
    ensures Classify(desired, daw, hardware) == Swapped(Classify(desired, hardware, daw))
  {
  }

  function PendingFor(target: Target): MirrorState { if target.ToHardware? then PendingHardware else PendingDaw }

  function Other(target: Target): Target { if target.ToHardware? then ToDaw else ToHardware }

  /** The classification after the target's observation has been replaced. */
  function ClassifyWith(desired: string, hardware: Option<Observation>, daw: Option<Observation>,
                        target: Target, o: Observation): MirrorState
  {
    if target.ToHardware? then Classify(desired, Some(o), daw) else Classify(desired, hardware, Some(o))
  }

  /**
   * What an acknowledged write of the desired value does to a mirror in any state: it synchronizes exactly a
   * mirror that was pending on that side (or already synchronized); every other mirror is left pending on the
   * other side, and only there.
   */
  lemma AcknowledgedWriteSettlesSide(plan: Intent, events: seq<Event>, desired: string,
                                     hardware: Option<Observation>, daw: Option<Observation>)
    requires plan.phase == Planned && plan.desiredValue == desired
    requires Run(plan, events).phase == Acknowledged
    ensures Run(plan, events).acknowledgement.Some?
    ensures var before := Classify(desired, hardware, daw);
            var after := ClassifyWith(desired, hardware, daw, plan.target, Run(plan, events).acknowledgement.value);
            after == if before == PendingFor(plan.target) || before == Synchronized then Synchronized
                     else PendingFor(Other(plan.target))
  {
    RunEarnsItsPhase(plan, events);
    RunKeepsPlan(plan, events);
    var i := Run(plan, events);
    var d, a :| 0 <= d < a < |events| && SentBy(i, events[d]) && ConfirmedBy(i, events[a]);
    assert Settled(desired, i.acknowledgement);
  }

  /**
   * A mirror pending on one side, a write to that side that is planned, sent in time and, whatever harmless happens
   * in between, confirmed: synchronized.
   */
  lemma PendingMirrorConverges(id: string, parameterId: string, target: Target, desired: string, revision: Revision,
                               now: nat, timeout: nat, sentAt: nat, between: seq<Event>, o: Observation,
                               hardware: Option<Observation>, daw: Option<Observation>)
    requires Classify(desired, hardware, daw) == PendingFor(target)
    requires id != "" && parameterId != "" && desired != ""
    requires 0 < timeout <= 60_000_000 && now + timeout < WORD
    requires now <= sentAt <= o.observedAt < now + timeout
    requires o.value == desired && AtLeast(o.evidence, Observed)
    requires o.origin == if target.ToHardware? then FromHardware else FromDaw
    requires o.revision.session >= revision.session
    requires if target.ToHardware? then o.revision.hardware >= revision.hardware else o.revision.daw >= revision.daw
    requires var plan := PlanWrite(id, parameterId, target, desired, revision, Qualified, true, now, timeout);
             forall k :: 0 <= k < |between| ==> Harmless(Dispatch(plan, revision, sentAt), between[k])
    ensures var plan := PlanWrite(id, parameterId, target, desired, revision, Qualified, true, now, timeout);
            var events := [DispatchEvent(revision, sentAt)] + (between + [AcknowledgeEvent(o)]);
            && Run(plan, events).phase == Acknowledged
            && ClassifyWith(desired, hardware, daw, target, o) == Synchronized
  {
    var plan := PlanWrite(id, parameterId, target, desired, revision, Qualified, true, now, timeout);
    var sent := [DispatchEvent(revision, sentAt)];
    assert sent[..0] == [] && Run(plan, sent) == Dispatch(plan, revision, sentAt);
    RunConcat(plan, sent, between + [AcknowledgeEvent(o)]);
    ObservationDecides(Dispatch(plan, revision, sentAt), between, o);
  }
}
