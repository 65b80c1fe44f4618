/**
 * The crash-recoverable snapshot protocol of one session directory, as a step machine.
 *
 * A save writes a pending file piecewise, flushes it, opens it again to check it, renames current to
 * previous and pending to current. It can stop between any two steps, and a crash while the pending file is
 * being written keeps some beginning of what was written. Attempts are numbered from 1.
 */
module SnapshotProtocol {
  import opened Bytes
  import opened Wrappers

  /**
   * What the store needs of a session type: its id, what it is written as, what a file is read as, and what is left
   * of a session that has been written and read.
   */
  datatype Format<!S> = Format(
    id: S -> string,
    validId: string -> bool,
    make: S -> ByteString,
    maximumBytes: nat,
    read: ByteString -> Option<S>,
    kept: S -> S)

  /** save gets as far as opening the pending file. */
  predicate Accepts<S>(f: Format<S>, session: S) {
    f.validId(f.id(session)) && |f.make(session)| <= f.maximumBytes
  }

  datatype Slot = Absent | File(bytes: ByteString, attempt: nat)

  datatype Disk = Disk(current: Slot, pending: Slot, previous: Slot)

  const EMPTY_DISK: Disk := Disk(Absent, Absent, Absent)

  datatype Phase = Idle | Writing(payload: ByteString, written: nat) | Flushed | Checked | Displaced | Promoted

  /** `saved[k - 1]` is the session of attempt k; `acknowledged` is the last attempt that returned true, or 0. */
  datatype State<S> = State(disk: Disk, phase: Phase, saved: seq<S>, acknowledged: nat)

  datatype Step<S> =
    | Begin(session: S) | Write(count: nat) | Flush | Check | Displace | Promote | Acknowledge
    | Stop | Crash(kept: nat)

  function Initial<S>(): State<S> { State(EMPTY_DISK, Idle, [], 0) }

  function Opens<S>(f: Format<S>, slot: Slot): Option<S> {
    if slot.Absent? then None else f.read(slot.bytes)
  }

  function Next<S>(f: Format<S>, s: State<S>, step: Step<S>): State<S> {
    match step
    case Begin(session) =>
      if s.phase.Idle? && Accepts(f, session) then
        State(s.disk.(pending := File([], |s.saved| + 1)), Writing(f.make(session), 0),
              s.saved + [session], s.acknowledged)
      else s
    case Write(count) =>
      if s.phase.Writing? && s.phase.written + count <= |s.phase.payload| then
        s.(disk := s.disk.(pending := File(s.phase.payload[..s.phase.written + count], |s.saved|)),
           phase := s.phase.(written := s.phase.written + count))
      else s
    case Flush =>
      if s.phase.Writing? && s.phase.written == |s.phase.payload| then s.(phase := Flushed) else s
    case Check =>
      if !s.phase.Flushed? then s
      else if Opens(f, s.disk.pending).Some? then s.(phase := Checked)
      else s.(phase := Idle)
    case Displace =>
      if !s.phase.Checked? then s
      else if s.disk.current.File? then
        s.(disk := s.disk.(previous := s.disk.current, current := Absent), phase := Displaced)
      else s.(phase := Displaced)
    case Promote =>
      if s.phase.Displaced? then
        s.(disk := s.disk.(current := s.disk.pending, pending := Absent), phase := Promoted)
      else s
    case Acknowledge =>
      if s.phase.Promoted? then s.(phase := Idle, acknowledged := |s.saved|) else s
    case Stop => s.(phase := Idle)
    case Crash(kept) =>
      if s.phase.Writing? && kept <= s.phase.written <= |s.phase.payload| then
        s.(disk := s.disk.(pending := File(s.phase.payload[..kept], |s.saved|)), phase := Idle)
      else s.(phase := Idle)
  }

  function Run<S>(f: Format<S>, s: State<S>, steps: seq<Step<S>>): State<S> {
    if steps == [] then s else Next(f, Run(f, s, steps[..|steps| - 1]), steps[|steps| - 1])
  }

  lemma RunAppend<S>(f: Format<S>, s: State<S>, steps: seq<Step<S>>, step: Step<S>)
    ensures Run(f, s, steps + [step]) == Next(f, Run(f, s, steps), step)
  {
    assert (steps + [step])[..|steps|] == steps;
  }

  lemma {:induction false} RunConcat<S>(f: Format<S>, s: State<S>, a: seq<Step<S>>, b: seq<Step<S>>)
    ensures Run(f, s, a + b) == Run(f, Run(f, s, a), b)
  {
    if b == [] {
      assert a + b == a;
    } else {
      assert (a + b)[..|a + b| - 1] == a + b[..|b| - 1];
      RunConcat(f, s, a, b[..|b| - 1]);
    }
  }

  lemma RunAfter<S>(f: Format<S>, s: State<S>, first: Step<S>, rest: seq<Step<S>>)
    ensures Run(f, s, [first] + rest) == Run(f, Next(f, s, first), rest)
  {
    RunConcat(f, s, [first], rest);
    assert [first][..0] == [];
  }

  // ------------------------------------------------------------------ loading

  datatype Source = FromCurrent | FromPending | FromPrevious

  datatype Loaded<S> = Loaded(session: S, source: Source, recovered: bool, attempt: nat)

  /** Current, then pending, then previous: the first that opens. */
  function Load<S>(f: Format<S>, d: Disk): Option<Loaded<S>> {
    match Opens(f, d.current)
    case Some(session) => Some(Loaded(session, FromCurrent, false, d.current.attempt))
    case None =>
      match Opens(f, d.pending)
      case Some(session) => Some(Loaded(session, FromPending, true, d.pending.attempt))
      case None =>
        match Opens(f, d.previous)
        case Some(session) => Some(Loaded(session, FromPrevious, true, d.previous.attempt))
        case None => None
  }

  // ------------------------------------------------------------------ what every run keeps

  /** The beginning of a snapshot reads as nothing, or (a final newline missing, say) as what the snapshot keeps. */
  ghost predicate TornSafe<S(!new)>(f: Format<S>) {
    forall s: S, n: nat :: n <= |f.make(s)| ==> f.read(f.make(s)[..n]) in {None, Some(f.kept(s))}
  }

  /** A file holds the beginning of the snapshot its attempt was writing. */
  ghost predicate HoldsAttempt<S>(f: Format<S>, saved: seq<S>, slot: Slot) {
    slot.File? ==> 0 < slot.attempt <= |saved| && slot.bytes <= f.make(saved[slot.attempt - 1])
  }

  predicate Before(a: Slot, b: Slot) {
    a.File? && b.File? ==> a.attempt < b.attempt
  }

  ghost predicate PhaseInv<S>(f: Format<S>, s: State<S>) {
    match s.phase
    case Idle => true
    case Writing(payload, written) =>
      && s.saved != [] && payload == f.make(s.saved[|s.saved| - 1]) && written <= |payload|
      && s.disk.pending == File(payload[..written], |s.saved|)
    case Flushed => s.saved != [] && s.disk.pending == File(f.make(s.saved[|s.saved| - 1]), |s.saved|)
    case Checked => s.disk.pending.File? && Opens(f, s.disk.pending).Some?
    case Displaced => s.disk.pending.File? && Opens(f, s.disk.pending).Some? && s.disk.current.Absent?
    case Promoted => s.disk.current.File? && s.disk.current.attempt == |s.saved| && s.disk.pending.Absent?
  }

  ghost predicate Inv<S>(f: Format<S>, s: State<S>) {
    && HoldsAttempt(f, s.saved, s.disk.current)
    && HoldsAttempt(f, s.saved, s.disk.pending)
    && HoldsAttempt(f, s.saved, s.disk.previous)
    && (s.disk.current.File? ==> Opens(f, s.disk.current).Some?)
    && (s.disk.previous.File? ==> Opens(f, s.disk.previous).Some?)
    && (s.disk.pending.File? ==> s.disk.pending.attempt == |s.saved|)
    && Before(s.disk.previous, s.disk.current)
    && Before(s.disk.current, s.disk.pending)
    && Before(s.disk.previous, s.disk.pending)
    && (s.acknowledged > 0 ==> Sheltered(s))
    && PhaseInv(f, s)
  }

  /** The acknowledged snapshot, or a later one, is in current; while current is displaced, in previous. */
  predicate Sheltered<S>(s: State<S>) {
    if s.disk.current.File? then s.disk.current.attempt >= s.acknowledged
    else s.disk.previous.File? && s.disk.previous.attempt >= s.acknowledged
  }

  lemma BeginKeepsInv<S>(f: Format<S>, s: State<S>, session: S)
    requires Inv(f, s)
    ensures Inv(f, Next(f, s, Begin(session)))
  {
    var t := Next(f, s, Begin(session));
    if t != s {
      assert forall k :: 0 <= k < |s.saved| ==> t.saved[k] == s.saved[k];
    }
  }

  lemma WritingKeepsInv<S>(f: Format<S>, s: State<S>, step: Step<S>)
    requires Inv(f, s) && (step.Write? || step.Crash?)
    ensures Inv(f, Next(f, s, step))
  {
    if s.phase.Writing? {
      assert HoldsAttempt(f, s.saved, File(s.phase.payload, |s.saved|));
    }
  }

  lemma RenamingKeepsInv<S>(f: Format<S>, s: State<S>, step: Step<S>)
    requires Inv(f, s) && (step.Displace? || step.Promote?)
    ensures Inv(f, Next(f, s, step))
  {
  }

  lemma CheckingKeepsInv<S>(f: Format<S>, s: State<S>, step: Step<S>)
    requires Inv(f, s) && (step.Flush? || step.Check?)
    ensures Inv(f, Next(f, s, step))
  {
  }

  lemma StepKeepsInv<S>(f: Format<S>, s: State<S>, step: Step<S>)
    requires Inv(f, s)
    ensures Inv(f, Next(f, s, step))
  {
    match step
    case Begin(session) => BeginKeepsInv(f, s, session);
    case Write(_) => WritingKeepsInv(f, s, step);
    case Crash(_) => WritingKeepsInv(f, s, step);
    case Flush => CheckingKeepsInv(f, s, step);
    case Check => CheckingKeepsInv(f, s, step);
    case Displace => RenamingKeepsInv(f, s, step);
    case Promote => RenamingKeepsInv(f, s, step);
    case _ =>
  }

  lemma {:induction false} RunKeepsInv<S>(f: Format<S>, steps: seq<Step<S>>)
    ensures Inv(f, Run(f, Initial(), steps))
  {
    if steps != [] {
      RunKeepsInv(f, steps[..|steps| - 1]);
      StepKeepsInv(f, Run(f, Initial(), steps[..|steps| - 1]), steps[|steps| - 1]);
    }
  }

  lemma SlotOpensAsItsAttempt<S(!new)>(f: Format<S>, saved: seq<S>, slot: Slot)
    requires TornSafe(f) && HoldsAttempt(f, saved, slot)
    ensures Opens(f, slot).Some? ==> Opens(f, slot) == Some(f.kept(saved[slot.attempt - 1]))
  {
    if slot.File? {
      var text := f.make(saved[slot.attempt - 1]);
      assert slot.bytes == text[..|slot.bytes|];
    }
  }

  lemma LoadIsAnAttempt<S(!new)>(f: Format<S>, s: State<S>)
    requires TornSafe(f) && Inv(f, s)
    ensures var l := Load(f, s.disk);
            l.Some? ==> && 0 < l.value.attempt <= |s.saved|
                        && l.value.session == f.kept(s.saved[l.value.attempt - 1])
                        && l.value.recovered == !l.value.source.FromCurrent?
  {
    SlotOpensAsItsAttempt(f, s.saved, s.disk.current);
    SlotOpensAsItsAttempt(f, s.saved, s.disk.pending);
    SlotOpensAsItsAttempt(f, s.saved, s.disk.previous);
  }

  /** load finds what some attempt's snapshot keeps, and none older than the last one acknowledged. */
  ghost predicate Durable<S>(f: Format<S>, s: State<S>) {
    s.acknowledged > 0 ==>
      var l := Load(f, s.disk);
      && l.Some? && s.acknowledged <= l.value.attempt <= |s.saved|
      && l.value.session == f.kept(s.saved[l.value.attempt - 1])
  }

  lemma InvIsDurable<S(!new)>(f: Format<S>, s: State<S>)
    requires TornSafe(f) && Inv(f, s)
    ensures Durable(f, s)
  {
    LoadIsAnAttempt(f, s);
  }

  /** Durability, over every run, however its saves were interrupted, once one of them has returned true. */
  lemma AcknowledgedSavesSurvive<S(!new)>(f: Format<S>, steps: seq<Step<S>>)
    requires TornSafe(f)
    ensures Durable(f, Run(f, Initial(), steps))
  {
    RunKeepsInv(f, steps);
    InvIsDurable(f, Run(f, Initial(), steps));
  }

  /** Over every run the snapshots that open are ordered previous < current < pending by attempt. */
  lemma SnapshotsStayOrdered<S>(f: Format<S>, steps: seq<Step<S>>)
    ensures var d := Run(f, Initial(), steps).disk;
            && Before(d.previous, d.current) && Before(d.current, d.pending) && Before(d.previous, d.pending)
            && (d.current.File? ==> Opens(f, d.current).Some?)
            && (d.previous.File? ==> Opens(f, d.previous).Some?)
  {
    RunKeepsInv(f, steps);
  }

  // ------------------------------------------------------------------ when loading goes backwards

  function LoadedAttempt<S>(f: Format<S>, d: Disk): nat {
    match Load(f, d)
    case None => 0
    case Some(l) => l.attempt
  }

  ghost predicate NoBegin<S>(steps: seq<Step<S>>) {
    forall i :: 0 <= i < |steps| ==> !steps[i].Begin?
  }

  /** How far one attempt, begun on disk `d`, has taken the disk. */
  ghost predicate AttemptReached<S>(f: Format<S>, d: Disk, t: State<S>) {
    var e := t.disk;
    || (e.current == d.current && e.previous == d.previous && e.pending.File? && e.pending.attempt == |t.saved|
        && !t.phase.Promoted? && (t.phase.Displaced? ==> d.current.Absent?))
    || (e.current.Absent? && d.current.File? && e.previous == d.current && e.pending.File?
        && e.pending.attempt == |t.saved| && Opens(f, e.pending).Some?
        && (t.phase.Displaced? || t.phase.Idle?))
    || (e.pending.Absent? && e.current.File? && e.current.attempt == |t.saved|
        && (t.phase.Promoted? || t.phase.Idle?))
  }

  lemma AttemptStep<S>(f: Format<S>, d: Disk, t: State<S>, step: Step<S>)
    requires Inv(f, t) && !step.Begin? && AttemptReached(f, d, t)
    ensures AttemptReached(f, d, Next(f, t, step)) && Next(f, t, step).saved == t.saved
  {
  }

  lemma {:induction false} AttemptProgress<S>(f: Format<S>, s: State<S>, session: S, steps: seq<Step<S>>)
    requires Inv(f, s) && s.phase.Idle? && Accepts(f, session) && NoBegin(steps)
    ensures var t := Run(f, Next(f, s, Begin(session)), steps);
            && Inv(f, t) && |t.saved| == |s.saved| + 1 && AttemptReached(f, s.disk, t)
  {
    var b := Next(f, s, Begin(session));
    StepKeepsInv(f, s, Begin(session));
    if steps != [] {
      var before := steps[..|steps| - 1];
      AttemptProgress(f, s, session, before);
      StepKeepsInv(f, Run(f, b, before), steps[|steps| - 1]);
      AttemptStep(f, s.disk, Run(f, b, before), steps[|steps| - 1]);
    }
  }

  /**
   * Loads are not monotone. After one more attempt, wherever it stopped, load returns an older snapshot than
   * before it exactly when the earlier load had come from an unacknowledged pending file (there was no
   * current) and the attempt left that file unreadable.
   */
  lemma LoadGoesBackExactly<S>(f: Format<S>, s: State<S>, session: S, steps: seq<Step<S>>)
    requires Inv(f, s) && s.phase.Idle? && Accepts(f, session) && NoBegin(steps)
    ensures var t := Run(f, Next(f, s, Begin(session)), steps);
            LoadedAttempt(f, t.disk) < LoadedAttempt(f, s.disk)
            <==> && s.disk.current.Absent? && Opens(f, s.disk.pending).Some?
                 && t.disk.pending.File? && Opens(f, t.disk.pending).None?
  {
    AttemptProgress(f, s, session, steps);
  }

  /** The next attempt, wherever it stops, can leave a disk from which an older snapshot is loaded. */
  ghost predicate CanGoBack<S(!new)>(f: Format<S>, s: State<S>, session: S) {
    exists steps ::
      NoBegin(steps) && LoadedAttempt(f, Run(f, Next(f, s, Begin(session)), steps).disk) < LoadedAttempt(f, s.disk)
  }

  /**
   * The next attempt can make loading go back exactly when there is no current file and the pending one opens,
   * provided that an empty file does not open.
   */
  lemma GoesBackExactly<S(!new)>(f: Format<S>, s: State<S>, session: S)
    requires Inv(f, s) && s.phase.Idle? && Accepts(f, session)
    requires f.read([]) == None
    ensures CanGoBack(f, s, session) <==> s.disk.current.Absent? && Opens(f, s.disk.pending).Some?
  {
    if CanGoBack(f, s, session) {
      var steps :| NoBegin(steps)
        && LoadedAttempt(f, Run(f, Next(f, s, Begin(session)), steps).disk) < LoadedAttempt(f, s.disk);
      LoadGoesBackExactly(f, s, session, steps);
    }
    if s.disk.current.Absent? && Opens(f, s.disk.pending).Some? {
      LoadGoesBackExactly(f, s, session, []);
      assert NoBegin<S>([]);
    }
  }

  // ------------------------------------------------------------------ saves that run to the end

  /** Everything up to the two renames. */
  function Prepare<S>(f: Format<S>, session: S): seq<Step<S>> {
    [Begin(session), Write(|f.make(session)|)] + [Flush, Check]
  }

  function FullSave<S>(f: Format<S>, session: S): seq<Step<S>> {
    Prepare(f, session) + ([Displace, Promote] + [Acknowledge])
  }

  /** A save that is interrupted between its two renames. */
  function HalfSave<S>(f: Format<S>, session: S): seq<Step<S>> { Prepare(f, session) + [Displace, Stop] }

  lemma RunOne<S>(f: Format<S>, s: State<S>, a: Step<S>)
    ensures Run(f, s, [a]) == Next(f, s, a)
  {
    RunAppend(f, s, [], a);
    assert [] + [a] == [a];
  }

  lemma RunTwo<S>(f: Format<S>, s: State<S>, a: Step<S>, b: Step<S>)
    ensures Run(f, s, [a, b]) == Next(f, Next(f, s, a), b)
  {
    RunOne(f, s, a);
    RunAppend(f, s, [a], b);
    assert [a] + [b] == [a, b];
  }

  /** What has been written is checked, whole, and waits in pending. */
  lemma PrepareEffect<S>(f: Format<S>, s: State<S>, session: S)
    requires s.phase.Idle? && Accepts(f, session) && f.read(f.make(session)).Some?
    ensures var k := |s.saved| + 1;
            Run(f, s, Prepare(f, session))
              == State(s.disk.(pending := File(f.make(session), k)), Checked, s.saved + [session], s.acknowledged)
  {
    var text, written := f.make(session), [Begin(session), Write(|f.make(session)|)];
    RunTwo(f, s, Begin(session), Write(|text|));
    assert text[..|text|] == text;
    RunTwo(f, Run(f, s, written), Flush, Check);
    RunConcat(f, s, written, [Flush, Check]);
  }

  /** The renames and the acknowledgement. */
  lemma ReplaceEffect<S>(f: Format<S>, s: State<S>)
    requires s.phase.Checked?
    ensures var t := Run(f, s, [Displace, Promote] + [Acknowledge]);
            && t.phase.Idle? && t.saved == s.saved && t.acknowledged == |s.saved|
            && t.disk == Disk(s.disk.pending, Absent, if s.disk.current.File? then s.disk.current else s.disk.previous)
  {
    RunTwo(f, s, Displace, Promote);
    RunAppend(f, s, [Displace, Promote], Acknowledge);
  }

  /**
   * Wherever the written text of a readable session is current, loading gives back, from current, what the snapshot
   * keeps of that session.
   */
  lemma CurrentLoadsBack<S(!new)>(f: Format<S>, d: Disk, session: S, k: nat)
    requires TornSafe(f) && f.read(f.make(session)).Some?
    requires d.current == File(f.make(session), k)
    ensures Load(f, d) == Some(Loaded(f.kept(session), FromCurrent, false, k))
  {
    assert f.make(session)[..|f.make(session)|] == f.make(session);
  }

  /** An uninterrupted save of a session within every bound: it is current, and what was current is previous. */
  lemma FullSaveEffect<S(!new)>(f: Format<S>, s: State<S>, session: S)
    requires TornSafe(f) && s.phase.Idle?
    requires Accepts(f, session) && f.read(f.make(session)).Some?
    ensures var t := Run(f, s, FullSave(f, session));
            && t.phase.Idle? && t.saved == s.saved + [session] && t.acknowledged == |t.saved|
            && t.disk.current == File(f.make(session), |t.saved|) && t.disk.pending == Absent
            && t.disk.previous == (if s.disk.current.File? then s.disk.current else s.disk.previous)
            && Load(f, t.disk) == Some(Loaded(f.kept(session), FromCurrent, false, |t.saved|))
  {
    PrepareEffect(f, s, session);
    ReplaceEffect(f, Run(f, s, Prepare(f, session)));
    RunConcat(f, s, Prepare(f, session), [Displace, Promote] + [Acknowledge]);
    CurrentLoadsBack(f, Run(f, s, FullSave(f, session)).disk, session, |s.saved| + 1);
  }

  /** After two uninterrupted saves, damage to the current file alone gives back the earlier session, as recovered. */
  lemma DamagedCurrentFallsBack<S(!new)>(f: Format<S>, before: seq<Step<S>>, first: S, second: S, damaged: ByteString)
    requires TornSafe(f)
    requires Run(f, Initial(), before).phase.Idle?
    requires Accepts(f, first) && f.read(f.make(first)).Some?
    requires Accepts(f, second) && f.read(f.make(second)).Some?
    requires f.read(damaged) == None
    ensures var s := Run(f, Initial(), before + FullSave(f, first) + FullSave(f, second));
            && |s.saved| >= 2
            && Load(f, s.disk.(current := File(damaged, |s.saved|)))
                 == Some(Loaded(f.kept(first), FromPrevious, true, |s.saved| - 1))
  {
    var s0 := Run(f, Initial(), before);
    var s1 := Run(f, s0, FullSave(f, first));
    FullSaveEffect(f, s0, first);
    RunConcat(f, Initial(), before, FullSave(f, first));
    FullSaveEffect(f, s1, second);
    RunConcat(f, Initial(), before + FullSave(f, first), FullSave(f, second));
    CurrentLoadsBack(f, s1.disk, first, |s1.saved|);
  }

  lemma HalfSaveEffect<S>(f: Format<S>, s: State<S>, session: S)
    requires s.phase.Idle? && s.disk.current.File?
    requires Accepts(f, session) && f.read(f.make(session)).Some?
    ensures var t := Run(f, s, HalfSave(f, session));
            && t.phase.Idle? && t.saved == s.saved + [session]
            && t.disk == Disk(Absent, File(f.make(session), |t.saved|), s.disk.current)
  {
    PrepareEffect(f, s, session);
    RunTwo(f, Run(f, s, Prepare(f, session)), Displace, Stop);
    RunConcat(f, s, Prepare(f, session), [Displace, Stop]);
  }

  /**
   * A run in which loading goes back: a save that is acknowledged, one that is interrupted between its renames and
   * so loads from its pending file, and the beginning of a third.
   */
  lemma LoadGoesBackInARun<S(!new)>(f: Format<S>, first: S, second: S, third: S)
    requires TornSafe(f) && f.read([]) == None
    requires Accepts(f, first) && f.read(f.make(first)).Some?
    requires Accepts(f, second) && f.read(f.make(second)).Some?
    requires Accepts(f, third)
    ensures var steps := FullSave(f, first) + HalfSave(f, second);
            && Load(f, Run(f, Initial(), steps).disk) == Some(Loaded(f.kept(second), FromPending, true, 2))
            && Load(f, Run(f, Initial(), steps + [Begin(third)]).disk)
                 == Some(Loaded(f.kept(first), FromPrevious, true, 1))
  {
    var steps := FullSave(f, first) + HalfSave(f, second);
    FullSaveEffect(f, Initial(), first);
    HalfSaveEffect(f, Run(f, Initial(), FullSave(f, first)), second);
    RunConcat(f, Initial(), FullSave(f, first), HalfSave(f, second));
    RunAppend(f, Initial(), steps, Begin(third));
    assert f.make(second)[..|f.make(second)|] == f.make(second);
  }
}
