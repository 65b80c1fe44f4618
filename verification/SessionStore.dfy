/** The durable session store: one directory of three snapshot files for every session id. */
module SessionStore {
  import opened Bytes
  import opened SnapshotProtocol
  import opened Wrappers

  // ------------------------------------------------------------------ the operating system's answers

  /**
   * How the calls of one save turn out. Each entry of `writes` is one write call: negative if it is interrupted,
   * 0 for an error, or the most bytes it will take; running out of entries is an error too.
   */
  datatype Outcomes = Outcomes(opens: bool, writes: seq<int>, flushes: bool, displaces: bool, promotes: bool)

  /** The calls from this one on write all that remains. */
  predicate WritesAll(writes: seq<int>, call: nat, remaining: nat)
    requires call <= |writes|
    decreases |writes| - call
  {
    if remaining == 0 then true
    else if call == |writes| || writes[call] == 0 then false
    else if writes[call] < 0 then WritesAll(writes, call + 1, remaining)
    else WritesAll(writes, call + 1, if writes[call] < remaining then remaining - writes[call] else 0)
  }

  /** The most bytes these calls take between them; interrupted ones take none. */
  function Taken(calls: seq<int>): nat {
    if calls == [] then 0
    else (if calls[0] > 0 then calls[0] else 0) + Taken(calls[1..])
  }

  /** The calls from this one up to another, none of them an error, take that much between them. */
  predicate Enough(writes: seq<int>, call: nat, end: nat, remaining: nat) {
    call <= end <= |writes| && 0 !in writes[call..end] && Taken(writes[call..end]) >= remaining
  }

  lemma {:induction false} EnoughAfter(writes: seq<int>, call: nat, end: nat, remaining: nat)
    requires call < end <= |writes|
    ensures var w := writes[call];
            var left := if w < 0 then remaining else if w < remaining then remaining - w else 0;
            Enough(writes, call, end, remaining) <==> w != 0 && Enough(writes, call + 1, end, left)
  {
    assert writes[call..end] == [writes[call]] + writes[call + 1..end];
  }

  /** Everything is written exactly if some calls in a row are enough for it. */
  lemma {:induction false} WritesAllExactly(writes: seq<int>, call: nat, remaining: nat)
    requires call <= |writes|
    ensures WritesAll(writes, call, remaining) <==> exists end :: Enough(writes, call, end, remaining)
    decreases |writes| - call
  {
    if remaining == 0 {
      assert Enough(writes, call, call, 0);
    } else if call < |writes| {
      var w, next := writes[call], call + 1;
      var left := if w < 0 then remaining else if w < remaining then remaining - w else 0;
      WritesAllExactly(writes, next, left);
      if end: nat :| Enough(writes, call, end, remaining) {
        assert end > call;
        EnoughAfter(writes, call, end, remaining);
      }
      if end: nat :| Enough(writes, next, end, left) {
        EnoughAfter(writes, call, end, remaining);
      }
    }
  }

  /** The state in which so much of the payload has been written. */
  function Partway<S>(s: State<S>, payload: ByteString, offset: nat): State<S>
    requires offset <= |payload|
  {
    s.(disk := s.disk.(pending := File(payload[..offset], |s.saved|)), phase := Writing(payload, offset))
  }

  lemma WriteEffect<S>(f: Format<S>, s: State<S>, steps: seq<Step<S>>, payload: ByteString, offset: nat, count: nat)
    requires offset + count <= |payload|
    requires Run(f, s, steps) == Partway(s, payload, offset)
    ensures Run(f, s, steps + [Write(count)]) == Partway(s, payload, offset + count)
  {
    RunAppend(f, s, steps, Write(count));
  }

  lemma FlushEffect<S>(f: Format<S>, s: State<S>, steps: seq<Step<S>>, payload: ByteString, flushes: bool)
    requires Run(f, s, steps) == Partway(s, payload, |payload|)
    ensures Run(f, s, steps + [if flushes then Flush else Stop])
         == s.(disk := s.disk.(pending := File(payload, |s.saved|)), phase := if flushes then Flushed else Idle)
  {
    RunAppend(f, s, steps, if flushes then Flush else Stop);
    assert payload[..|payload|] == payload;
  }

  datatype History<S> = History(saved: seq<S>, acknowledged: nat)

  class DurableSessionStore<S(!new)> {
    const format: Format<S>
    var disks: map<string, Disk>
    // History, only used to number the attempts: the sessions each directory was asked to hold, and the last
    // attempt acknowledged.
    var histories: map<string, History<S>>
    // The protocol steps taken on each directory.
    ghost var runs: map<string, seq<Step<S>>>

    ghost function RunOf(id: string): seq<Step<S>>
      reads this`runs
    {
      if id in runs then runs[id] else []
    }

    /** Every directory is where its steps have led it. */
    ghost predicate Valid()
      reads this
    {
      forall id :: Directory(id) == Run(format, Initial(), RunOf(id))
    }

    constructor (format: Format<S>)
      ensures Valid() && this.format == format
      ensures forall id :: Directory(id) == Initial()
    {
      this.format := format;
      disks, histories, runs := map[], map[], map[];
    }

    /** Whatever saves this object has been asked for, and however they went: acknowledged sessions are loaded back. */
    lemma SavesSurvive(id: string)
      requires Valid() && TornSafe(format)
      ensures Durable(format, Directory(id))
    {
      AcknowledgedSavesSurvive(format, RunOf(id));
    }

    function DiskOf(id: string): Disk
      reads this`disks
    {
      if id in disks then disks[id] else EMPTY_DISK
    }

    /** The protocol state of one directory between saves. */
    function Directory(id: string): State<S>
      reads this`disks, this`histories
    {
      var h := if id in histories then histories[id] else History([], 0);
      State(DiskOf(id), Idle, h.saved, h.acknowledged)
    }

    ghost predicate OthersUnchanged(id: string, d: map<string, Disk>)
      reads this`disks
    {
      forall other :: other != id ==> (other in disks <==> other in d) && (other in d ==> disks[other] == d[other])
    }

    /** One write call that takes up to so many bytes. */
    method WriteSome(id: string, payload: ByteString, offset: nat, most: int, ghost s: State<S>,
                     ghost steps: seq<Step<S>>)
      returns (written: nat)
      requires offset < |payload| && 0 < most
      requires Run(format, s, steps) == Partway(s, payload, offset) && DiskOf(id) == Partway(s, payload, offset).disk
      modifies this`disks
      ensures OthersUnchanged(id, old(disks))
      ensures written == if most < |payload| - offset then most else |payload| - offset
      ensures Run(format, s, steps + [Write(written)]) == Partway(s, payload, offset + written)
      ensures DiskOf(id) == Partway(s, payload, offset + written).disk
    {
      written := most;
      if written > |payload| - offset {
        written := |payload| - offset;
      }
      WriteEffect(format, s, steps, payload, offset, written);
      disks := disks[id := DiskOf(id).(pending := File(payload[..offset + written], DiskOf(id).pending.attempt))];
    }

    /** Truncate, write piece by piece, flush. `ok` says that all of it was written and flushed. */
    method WritePending(id: string, payload: ByteString, outcomes: Outcomes, ghost s: State<S>)
      returns (ok: bool, ghost steps: seq<Step<S>>)
      requires DiskOf(id) == s.disk && s.phase == Writing(payload, 0)
      requires s.disk.pending == File([], |s.saved|)
      modifies this`disks
      ensures OthersUnchanged(id, old(disks))
      ensures Run(format, s, steps) == s.(disk := DiskOf(id), phase := if ok then Flushed else Idle)
      ensures ok ==> DiskOf(id) == s.disk.(pending := File(payload, |s.saved|))
      ensures ok == (WritesAll(outcomes.writes, 0, |payload|) && outcomes.flushes)
    {
      var offset := 0;
      var call := 0;
      steps := [];
      assert s == Partway(s, payload, 0);
      while offset < |payload|
        invariant 0 <= offset <= |payload| && 0 <= call <= |outcomes.writes|
        invariant OthersUnchanged(id, old(disks))
        invariant Run(format, s, steps) == Partway(s, payload, offset)
        invariant DiskOf(id) == Partway(s, payload, offset).disk
        invariant WritesAll(outcomes.writes, 0, |payload|) == WritesAll(outcomes.writes, call, |payload| - offset)
        decreases |outcomes.writes| - call
      {
        if call == |outcomes.writes| || outcomes.writes[call] == 0 {
          RunAppend(format, s, steps, Stop);
          return false, steps + [Stop];
        }
        var most := outcomes.writes[call];
        call := call + 1;
        if most < 0 {
          continue;
        }
        var written := WriteSome(id, payload, offset, most, s, steps);
        steps := steps + [Write(written)];
        offset := offset + written;
      }
      FlushEffect(format, s, steps, payload, outcomes.flushes);
      assert payload[..offset] == payload;
      steps := steps + [if outcomes.flushes then Flush else Stop];
      ok := outcomes.flushes;
    }

    /** The first rename: current, if there is one, becomes previous. */
    method DisplaceCurrent(id: string, outcomes: Outcomes, ghost s: State<S>) returns (ok: bool, ghost step: Step<S>)
      requires DiskOf(id) == s.disk && s.phase.Checked?
      modifies this`disks
      ensures OthersUnchanged(id, old(disks))
      ensures Next(format, s, step) == s.(disk := DiskOf(id), phase := if ok then Displaced else Idle)
      ensures ok == (s.disk.current.File? ==> outcomes.displaces)
      ensures DiskOf(id).pending == s.disk.pending
    {
      if DiskOf(id).current.File? {
        if !outcomes.displaces {
          return false, Stop;
        }
        disks := disks[id := DiskOf(id).(previous := DiskOf(id).current, current := Absent)];
      }
      return true, Displace;
    }

    /** The second rename: pending becomes current. */
    method PromotePending(id: string, outcomes: Outcomes, ghost s: State<S>) returns (ok: bool, ghost step: Step<S>)
      requires DiskOf(id) == s.disk && s.phase.Displaced?
      modifies this`disks
      ensures OthersUnchanged(id, old(disks))
      ensures Next(format, s, step) == s.(disk := DiskOf(id), phase := if ok then Promoted else Idle)
      ensures ok == outcomes.promotes
      ensures ok ==> DiskOf(id).current == s.disk.pending
    {
      if !outcomes.promotes {
        return false, Stop;
      }
      disks := disks[id := DiskOf(id).(current := DiskOf(id).pending, pending := Absent)];
      return true, Promote;
    }

    /** Everything after the pending file has been opened: write it, read it back, replace. */
    method Attempt(id: string, payload: ByteString, outcomes: Outcomes, ghost s: State<S>)
      returns (ok: bool, ghost steps: seq<Step<S>>)
      requires DiskOf(id) == s.disk && s.phase == Writing(payload, 0)
      requires s.disk.pending == File([], |s.saved|)
      modifies this`disks
      ensures OthersUnchanged(id, old(disks))
      ensures Run(format, s, steps)
              == State(DiskOf(id), Idle, s.saved, if ok then |s.saved| else s.acknowledged)
      ensures ok == (&& WritesAll(outcomes.writes, 0, |payload|) && outcomes.flushes
                     && format.read(payload).Some?
                     && (s.disk.current.File? ==> outcomes.displaces) && outcomes.promotes)
      ensures ok ==> DiskOf(id).current == File(payload, |s.saved|)
    {
      ok, steps := WritePending(id, payload, outcomes, s);
      if !ok {
        return false, steps;
      }
      ghost var t := Run(format, s, steps);
      RunAppend(format, s, steps, Check);
      steps := steps + [Check];
      if format.read(DiskOf(id).pending.bytes).None? {
        return false, steps;
      }
      t := Next(format, t, Check);
      ghost var step;
      ok, step := DisplaceCurrent(id, outcomes, t);
      RunAppend(format, s, steps, step);
      steps := steps + [step];
      if !ok {
        return false, steps;
      }
      t := Next(format, t, step);
      ok, step := PromotePending(id, outcomes, t);
      RunAppend(format, s, steps, step);
      steps := steps + [step];
      if ok {
        RunAppend(format, s, steps, Acknowledge);
        steps := steps + [Acknowledge];
      }
    }

    /** The session can be saved, and none of the calls its save makes fails. */
    predicate Succeeds(d: Disk, session: S, outcomes: Outcomes) {
      && Accepts(format, session) && outcomes.opens
      && WritesAll(outcomes.writes, 0, |format.make(session)|) && outcomes.flushes
      && format.read(format.make(session)).Some?
      && (d.current.File? ==> outcomes.displaces) && outcomes.promotes
    }

    /** A save up to the bookkeeping of the steps it took. */
    method TrySave(session: S, outcomes: Outcomes) returns (ok: bool, ghost steps: seq<Step<S>>)
      modifies this`disks, this`histories
      ensures Directory(format.id(session)) == Run(format, old(Directory(format.id(session))), steps)
      ensures forall other :: other != format.id(session) ==> Directory(other) == old(Directory(other))
      ensures ok == Succeeds(old(DiskOf(format.id(session))), session, outcomes)
      ensures ok ==>
                var t := Directory(format.id(session));
                && t.saved == old(Directory(format.id(session))).saved + [session] && t.acknowledged == |t.saved|
                && t.disk.current == File(format.make(session), |t.saved|)
    {
      var id := format.id(session);
      var s := Directory(id);
      if !format.validId(id) {
        return false, [];
      }
      var payload := format.make(session);
      if |payload| > format.maximumBytes || !outcomes.opens {
        return false, [];
      }
      ghost var b := Next(format, s, Begin(session));
      disks := disks[id := DiskOf(id).(pending := File([], |s.saved| + 1))];
      ghost var more;
      ok, more := Attempt(id, payload, outcomes, b);
      RunAfter(format, s, Begin(session), more);
      steps := [Begin(session)] + more;
      histories := histories[id := History(s.saved + [session], if ok then |s.saved| + 1 else s.acknowledged)];
    }

    /**
     * One save, under any outcomes of its system calls, is a run of the protocol on the session's own
     * directory, and touches no other. It returns true exactly when the session can be saved and nothing failed;
     * then the session is current and acknowledged, and loading gives back what a torn-safe format keeps of it.
     */
    method Save(session: S, outcomes: Outcomes) returns (ok: bool, ghost steps: seq<Step<S>>)
      requires Valid()
      modifies this
      ensures Valid()
      ensures Directory(format.id(session)) == Run(format, old(Directory(format.id(session))), steps)
      ensures forall other :: other != format.id(session) ==> Directory(other) == old(Directory(other))
      ensures ok == Succeeds(old(DiskOf(format.id(session))), session, outcomes)
      ensures ok ==>
                var t := Directory(format.id(session));
                && t.saved == old(Directory(format.id(session))).saved + [session] && t.acknowledged == |t.saved|
                && t.disk.current == File(format.make(session), |t.saved|)
                && (TornSafe(format) ==>
                      Load(format, t.disk) == Some(Loaded(format.kept(session), FromCurrent, false, |t.saved|)))
    {
      ghost var id := format.id(session);
      ok, steps := TrySave(session, outcomes);
      RunConcat(format, Initial(), RunOf(id), steps);
      runs := runs[id := RunOf(id) + steps];
      if ok && TornSafe(format) {
        CurrentLoadsBack(format, DiskOf(id), session, |Directory(id).saved|);
      }
      forall other
        ensures Directory(other) == Run(format, Initial(), RunOf(other))
      {
        assert old(Directory(other)) == Run(format, Initial(), old(RunOf(other)));
        assert other != id ==> RunOf(other) == old(RunOf(other));
      }
    }

    /** Loading tries the candidates in order and changes nothing. */
    method LoadSession(id: string) returns (result: Option<Loaded<S>>)
      ensures result == if format.validId(id) then Load(format, DiskOf(id)) else None
    {
      if !format.validId(id) {
        return None;
      }
      var d := DiskOf(id);
      var candidates := [(d.current, FromCurrent), (d.pending, FromPending), (d.previous, FromPrevious)];
      for i := 0 to |candidates|
        invariant forall k :: 0 <= k < i ==> Opens(format, candidates[k].0).None?
      {
        var (slot, source) := candidates[i];
        assert i == 1 ==> Opens(format, candidates[0].0).None?;
        assert i == 2 ==> Opens(format, candidates[0].0).None? && Opens(format, candidates[1].0).None?;
        if slot.Absent? {
          continue;
        }
        var parsed := format.read(slot.bytes);
        if parsed.Some? {
          return Some(Loaded(parsed.value, source, source != FromCurrent, slot.attempt));
        }
      }
      assert Opens(format, candidates[0].0).None? && Opens(format, candidates[1].0).None?;
      assert Opens(format, candidates[2].0).None?;
      return None;
    }
  }
}
