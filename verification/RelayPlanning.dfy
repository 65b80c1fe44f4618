/** Validating a parameter mapping and planning one relayed write from it. */
module RelayPlanning {
  import opened ParameterRelay
  import opened Revisions
  import opened StateSync
  import opened WordArithmetic
  import opened Wrappers

  datatype Direction = HardwareToDaw | DawToHardware | Bidirectional

  datatype Severity = Info | Warning | Error

  datatype Diagnostic = Diagnostic(severity: Severity, code: string)

  datatype Mapping = Mapping(
    mappingId: string, canonicalParameterId: string, unit: string, direction: Direction, curve: Curve,
    hardware: EndpointMapping, daw: EndpointMapping, evidence: Evidence,
    acknowledgementRequired: bool, acknowledgementTimeout: nat, maximumUpdatesPerSecond: nat)

  datatype RelayPlan = RelayPlan(
    allowed: bool, source: Origin, target: Target, normalized: real, targetValue: real, write: Intent,
    diagnostics: seq<Diagnostic>)

  predicate ValidEndpoint(e: EndpointMapping) { e.parameterId != "" && Ordered(e) }

  predicate SourceAllowed(direction: Direction, source: Origin) {
    match source
    case FromHardware => direction.HardwareToDaw? || direction.Bidirectional?
    case FromDaw => direction.DawToHardware? || direction.Bidirectional?
    case FromBridge => false
  }

  ghost predicate HasError(ds: seq<Diagnostic>) {
    exists i :: 0 <= i < |ds| && ds[i].severity == Error
  }

  function NoteIf(fault: bool, d: Diagnostic): seq<Diagnostic> { if fault then [d] else [] }

  lemma HasErrorConcat(a: seq<Diagnostic>, b: seq<Diagnostic>)
    ensures HasError(a + b) <==> HasError(a) || HasError(b)
  {
    if HasError(a) {
      var i :| 0 <= i < |a| && a[i].severity == Error;
      assert (a + b)[i].severity == Error;
    }
    if HasError(b) {
      var i :| 0 <= i < |b| && b[i].severity == Error;
      assert (a + b)[|a| + i].severity == Error;
    }
  }

  lemma NotesConcat(ds: seq<Diagnostic>, fault: bool, d: Diagnostic)
    ensures HasError(ds + NoteIf(fault, d)) <==> HasError(ds) || (fault && d.severity == Error)
    ensures ds + NoteIf(fault, d) == [] <==> ds == [] && !fault
  {
    assert [d][0] == d;
    HasErrorConcat(ds, NoteIf(fault, d));
  }

  /** Every direction the mapping declares can be read at its start and written at its end. */
  predicate DirectionAvailable(m: Mapping) {
    && (m.direction != DawToHardware ==> m.hardware.readable && m.daw.writable)
    && (m.direction != HardwareToDaw ==> m.daw.readable && m.hardware.writable)
  }

  predicate Ranged(m: Mapping) {
    && m.hardware.parameterId != "" && m.hardware.minimum < m.hardware.maximum
    && m.daw.parameterId != "" && m.daw.minimum < m.daw.maximum
  }

  predicate Identified(m: Mapping) {
    && m.mappingId != "" && m.canonicalParameterId != "" && m.unit != ""
    && Ranged(m) && (m.curve == Stepped ==> m.hardware.steps >= 2 && m.daw.steps >= 2)
  }

  predicate Bounded(m: Mapping) {
    0 < m.acknowledgementTimeout <= 60_000_000 && 0 < m.maximumUpdatesPerSecond <= 1000
  }

  predicate Sound(m: Mapping) {
    Identified(m) && DirectionAvailable(m) && m.acknowledgementRequired && Bounded(m)
  }

  function IdentityFaults(m: Mapping): seq<Diagnostic> {
    NoteIf(m.mappingId == "" || m.canonicalParameterId == "" || m.unit == "",
           Diagnostic(Error, "parameter_mapping_identity_missing"))
    + NoteIf(!Ranged(m), Diagnostic(Error, "parameter_mapping_range_invalid"))
    + NoteIf(m.curve == Stepped && (m.hardware.steps < 2 || m.daw.steps < 2),
             Diagnostic(Error, "parameter_mapping_steps_invalid"))
  }

  function DirectionFault(m: Mapping): Diagnostic {
    Diagnostic(Error, if m.direction == Bidirectional then "parameter_mapping_bidirectional_unavailable"
                      else "parameter_mapping_direction_unavailable")
  }

  function LimitFaults(m: Mapping): seq<Diagnostic> {
    NoteIf(!m.acknowledgementRequired, Diagnostic(Error, "parameter_mapping_acknowledgement_required"))
    + NoteIf(!Bounded(m), Diagnostic(Error, "parameter_mapping_bounds_invalid"))
    + NoteIf(m.evidence != Qualified, Diagnostic(Warning, "parameter_mapping_unqualified"))
  }

  /** Everything there is to say about a mapping, in the order in which it is said. */
  function MappingFaults(m: Mapping): seq<Diagnostic> {
    IdentityFaults(m) + NoteIf(!DirectionAvailable(m), DirectionFault(m)) + LimitFaults(m)
  }

  lemma IdentityFaultsAreErrors(m: Mapping)
    ensures HasError(IdentityFaults(m)) <==> !Identified(m)
    ensures IdentityFaults(m) == [] <==> Identified(m)
  {
    var missing := m.mappingId == "" || m.canonicalParameterId == "" || m.unit == "";
    var a := NoteIf(missing, Diagnostic(Error, "parameter_mapping_identity_missing"));
    var b := a + NoteIf(!Ranged(m), Diagnostic(Error, "parameter_mapping_range_invalid"));
    assert [] + a == a;
    NotesConcat([], missing, Diagnostic(Error, "parameter_mapping_identity_missing"));
    NotesConcat(a, !Ranged(m), Diagnostic(Error, "parameter_mapping_range_invalid"));
    NotesConcat(b, m.curve == Stepped && (m.hardware.steps < 2 || m.daw.steps < 2),
                Diagnostic(Error, "parameter_mapping_steps_invalid"));
  }

  lemma LimitFaultsAreErrors(m: Mapping)
    ensures HasError(LimitFaults(m)) <==> !m.acknowledgementRequired || !Bounded(m)
    ensures LimitFaults(m) == [] <==> m.acknowledgementRequired && Bounded(m) && m.evidence == Qualified
  {
    var acknowledged := Diagnostic(Error, "parameter_mapping_acknowledgement_required");
    var bounds := Diagnostic(Error, "parameter_mapping_bounds_invalid");
    var a := NoteIf(!m.acknowledgementRequired, acknowledged);
    assert [] + a == a;
    NotesConcat([], !m.acknowledgementRequired, acknowledged);
    NotesConcat(a, !Bounded(m), bounds);
    NotesConcat(a + NoteIf(!Bounded(m), bounds), m.evidence != Qualified,
                Diagnostic(Warning, "parameter_mapping_unqualified"));
  }

  /** A fault is an error, but for missing evidence, which is only a warning. */
  lemma FaultsAreErrors(m: Mapping)
    ensures HasError(MappingFaults(m)) <==> !Sound(m)
    ensures MappingFaults(m) == [] <==> Sound(m) && m.evidence == Qualified
  {
    IdentityFaultsAreErrors(m);
    LimitFaultsAreErrors(m);
    NotesConcat(IdentityFaults(m), !DirectionAvailable(m), DirectionFault(m));
    HasErrorConcat(IdentityFaults(m) + NoteIf(!DirectionAvailable(m), DirectionFault(m)), LimitFaults(m));
  }

  method Report(ds: seq<Diagnostic>, when: bool, d: Diagnostic) returns (more: seq<Diagnostic>)
    ensures more == ds + NoteIf(when, d)
  {
    more := if when then ds + [d] else ds;
  }

  method ValidateIdentity(m: Mapping) returns (ds: seq<Diagnostic>)
    ensures ds == IdentityFaults(m)
  {
    ds := Report([], m.mappingId == "" || m.canonicalParameterId == "" || m.unit == "",
                 Diagnostic(Error, "parameter_mapping_identity_missing"));
    ds := Report(ds, !ValidEndpoint(m.hardware) || !ValidEndpoint(m.daw),
                 Diagnostic(Error, "parameter_mapping_range_invalid"));
    ds := Report(ds, m.curve == Stepped && (m.hardware.steps < 2 || m.daw.steps < 2),
                 Diagnostic(Error, "parameter_mapping_steps_invalid"));
  }

  method ValidateDirection(m: Mapping, before: seq<Diagnostic>) returns (ds: seq<Diagnostic>)
    ensures ds == before + NoteIf(!DirectionAvailable(m), DirectionFault(m))
  {
    ds := Report(before, m.direction == HardwareToDaw && (!m.hardware.readable || !m.daw.writable),
                 Diagnostic(Error, "parameter_mapping_direction_unavailable"));
    ds := Report(ds, m.direction == DawToHardware && (!m.daw.readable || !m.hardware.writable),
                 Diagnostic(Error, "parameter_mapping_direction_unavailable"));
    ds := Report(ds, m.direction == Bidirectional
                     && (!m.hardware.readable || !m.hardware.writable || !m.daw.readable || !m.daw.writable),
                 Diagnostic(Error, "parameter_mapping_bidirectional_unavailable"));
  }

  method ValidateLimits(m: Mapping, before: seq<Diagnostic>) returns (ds: seq<Diagnostic>)
    ensures ds == before + LimitFaults(m)
  {
    ds := Report(before, !m.acknowledgementRequired, Diagnostic(Error, "parameter_mapping_acknowledgement_required"));
    ds := Report(ds, m.acknowledgementTimeout == 0 || m.acknowledgementTimeout > MAXIMUM_TIMEOUT
                     || m.maximumUpdatesPerSecond == 0 || m.maximumUpdatesPerSecond > 1000,
                 Diagnostic(Error, "parameter_mapping_bounds_invalid"));
    ds := Report(ds, !AtLeast(m.evidence, Qualified), Diagnostic(Warning, "parameter_mapping_unqualified"));
  }

  /**
   * The diagnostics name every fault, in order. They contain an error exactly when the mapping is not sound; missing
   * evidence is only a warning.
   */
  method ValidateMapping(m: Mapping) returns (ds: seq<Diagnostic>)
    ensures ds == MappingFaults(m)
    ensures HasError(ds) <==> !Sound(m)
    ensures ds == [] <==> Sound(m) && m.evidence == Qualified
  {
    ds := ValidateIdentity(m);
    ds := ValidateDirection(m, ds);
    ds := ValidateLimits(m, ds);
    FaultsAreErrors(m);
  }

  const UNPLANNED: Intent := Intent("", "", ToHardware, "", Revision(0, 0, 0), Blocked, 0, 0, 0, None, [])

  /** The mapping carries values away from this side. */
  predicate Carries(m: Mapping, source: Origin) {
    || (source == FromHardware && m.direction in {HardwareToDaw, Bidirectional})
    || (source == FromDaw && m.direction in {DawToHardware, Bidirectional})
  }

  predicate ShownInRange(m: Mapping, source: Origin, value: real) {
    if source == FromHardware then m.hardware.minimum <= value <= m.hardware.maximum
    else m.daw.minimum <= value <= m.daw.maximum
  }

  /** All that a relay of this value needs: validation leaves only the deadline's range to planning. */
  predicate RelayAllowed(m: Mapping, source: Origin, value: real, now: nat) {
    && Sound(m) && m.evidence == Qualified && Carries(m, source) && ShownInRange(m, source, value)
    && now + m.acknowledgementTimeout < WORD
  }

  /** The value the other side is to have. */
  function Carried(m: Mapping, source: Origin, value: real): real
    requires Sound(m)
  {
    if source == FromHardware then Relay(m.hardware, m.daw, m.curve, value)
    else Relay(m.daw, m.hardware, m.curve, value)
  }

  /** The one thing that stops a relay over a mapping without faults, or that the write is planned. */
  function RelayVerdict(m: Mapping, source: Origin, value: real, now: nat): Diagnostic {
    if !Carries(m, source) then Diagnostic(Error, "parameter_relay_direction_blocked")
    else if !ShownInRange(m, source, value) then Diagnostic(Error, "parameter_relay_value_out_of_range")
    else if now + m.acknowledgementTimeout >= WORD then Diagnostic(Error, "parameter_deadline_overflow")
    else Diagnostic(Info, "parameter_write_planned")
  }

  /** The severity the planner of writes gives each of its codes. */
  function Graded(code: string): Diagnostic {
    if code == "parameter_write_planned" then Diagnostic(Info, code)
    else if code == "parameter_target_read_only" || code == "parameter_mapping_unqualified" then
      Diagnostic(Warning, code)
    else Diagnostic(Error, code)
  }

  /** The write that carries a value to a side, and the diagnostic it comes with. */
  method PlanWriteTo(target: Target, desired: string, m: Mapping, writable: bool, expected: Revision, now: nat,
                     decimal: nat -> string)
    returns (write: Intent, noted: Diagnostic)
    requires Sound(m) && m.evidence == Qualified && writable && desired != ""
    ensures write.phase == if now + m.acknowledgementTimeout < WORD then Planned else Blocked
    ensures write.id == m.mappingId + "-" + decimal(now) && write.parameterId == m.canonicalParameterId
    ensures write.target == target && write.desiredValue == desired && write.expectedRevision == expected
    ensures write.createdAt == now
    ensures write.phase == Planned ==> write.deadline == now + m.acknowledgementTimeout
    ensures noted == if write.phase == Planned then Diagnostic(Info, "parameter_write_planned")
                     else Diagnostic(Error, "parameter_deadline_overflow")
  {
    write := PlanWrite(m.mappingId + "-" + decimal(now), m.canonicalParameterId, target, desired, expected,
                       m.evidence, writable, now, m.acknowledgementTimeout);
    noted := Graded(write.diagnostics[0]);
  }

  /** The planned write is of the mapped parameter and carries the relayed value, under this revision and deadline. */
  ghost predicate PlannedFor(plan: RelayPlan, m: Mapping, source: Origin, value: real, expected: Revision, now: nat,
                             decimal: nat -> string, number: real -> string)
    requires Sound(m)
  {
    && plan.targetValue == Carried(m, source, value)
    && InRange(if source == FromHardware then m.daw else m.hardware, plan.targetValue)
    && plan.normalized == Normalize(if source == FromHardware then m.hardware else m.daw, m.curve, value)
    && plan.write.id == m.mappingId + "-" + decimal(now) && plan.write.parameterId == m.canonicalParameterId
    && plan.write.phase == Planned && plan.write.target == plan.target
    && plan.write.desiredValue == number(plan.targetValue) && plan.write.expectedRevision == expected
    && plan.write.createdAt == now && plan.write.deadline == now + m.acknowledgementTimeout
  }

  /** Planning over a mapping that has passed validation. */
  method PlanSoundRelay(unplanned: RelayPlan, m: Mapping, source: Origin, value: real, expected: Revision, now: nat,
                        decimal: nat -> string, number: real -> string)
    returns (plan: RelayPlan)
    requires forall r: real :: number(r) != ""
    requires Sound(m) && m.evidence == Qualified
    requires !unplanned.allowed && unplanned.write.phase == Blocked
    requires unplanned.target == if source == FromHardware then ToDaw else ToHardware
    ensures plan.source == unplanned.source && plan.target == unplanned.target
    ensures plan.allowed <==>
              Carries(m, source) && ShownInRange(m, source, value) && now + m.acknowledgementTimeout < WORD
    ensures plan.diagnostics == unplanned.diagnostics + [RelayVerdict(m, source, value, now)]
    ensures if plan.allowed then PlannedFor(plan, m, source, value, expected, now, decimal, number)
            else plan.write.phase == Blocked
  {
    var ds := unplanned.diagnostics;
    if !SourceAllowed(m.direction, source) {
      return unplanned.(diagnostics := ds + [Diagnostic(Error, "parameter_relay_direction_blocked")]);
    }
    var sourceEndpoint := if source == FromHardware then m.hardware else m.daw;
    var targetEndpoint := if source == FromHardware then m.daw else m.hardware;
    if value < sourceEndpoint.minimum || value > sourceEndpoint.maximum {
      return unplanned.(diagnostics := ds + [Diagnostic(Error, "parameter_relay_value_out_of_range")]);
    }
    plan := unplanned.(normalized := Normalize(sourceEndpoint, m.curve, value));
    plan := plan.(targetValue := Denormalize(targetEndpoint, m.curve, plan.normalized));
    RelayStaysInRange(sourceEndpoint, targetEndpoint, m.curve, value);
    var write, noted := PlanWriteTo(plan.target, number(plan.targetValue), m, targetEndpoint.writable, expected, now,
                                    decimal);
    plan := plan.(write := write, allowed := write.phase == Planned, diagnostics := ds + [noted]);
  }

  /**
   * A relay is allowed exactly when all of that holds, and then its write is planned; otherwise the write is
   * blocked. The diagnostics are the faults of the mapping, or without any what became of the relay.
   */
  method PlanRelay(m: Mapping, source: Origin, value: real, expected: Revision, now: nat,
                   decimal: nat -> string, number: real -> string)
    returns (plan: RelayPlan)
    requires forall r: real :: number(r) != ""
    ensures plan.allowed <==> RelayAllowed(m, source, value, now)
    ensures plan.source == source && plan.target == if source == FromHardware then ToDaw else ToHardware
    ensures plan.diagnostics == if MappingFaults(m) != [] then MappingFaults(m)
                                else [RelayVerdict(m, source, value, now)]
    ensures if plan.allowed then PlannedFor(plan, m, source, value, expected, now, decimal, number)
            else plan.write.phase == Blocked
  {
    var ds := ValidateMapping(m);
    plan := RelayPlan(false, source, if source == FromHardware then ToDaw else ToHardware, 0.0, 0.0, UNPLANNED, ds);
    if (exists i :: 0 <= i < |ds| && ds[i].severity == Error) || !AtLeast(m.evidence, Qualified) {
      return;
    }
    plan := PlanSoundRelay(plan, m, source, value, expected, now, decimal, number);
  }
}
