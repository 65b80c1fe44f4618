/** Merging a hardware branch and a DAW branch of one session: conflicts, automatic changes, resolutions. */
module SessionMerge {
  import opened SessionCodec
  import opened Wrappers

  datatype Change = Change(entityId: string, field: string, before: string, after: string, policy: SyncPolicy)

  datatype Conflict = Conflict(hardware: Change, daw: Change, hint: string)

  datatype Key = Key(entityId: string, field: string)

  function KeyOf(c: Change): Key { Key(c.entityId, c.field) }

  // ------------------------------------------------------------------ conflicts

  predicate Clash(h: Change, d: Change) { KeyOf(h) == KeyOf(d) && h.after != d.after }

  function ConflictOf(h: Change, d: Change): Conflict {
    Conflict(h, d, if h.policy == HardwareAuthoritative then "hardware_wins"
                   else if d.policy == DawAuthoritative then "daw_wins"
                   else "require_user_review")
  }

  /** The conflicts of one hardware change, in the order of the DAW changes. */
  function ConflictsOf(h: Change, daw: seq<Change>): seq<Conflict> {
    if daw == [] then []
    else
      var d := daw[|daw| - 1];
      ConflictsOf(h, daw[..|daw| - 1]) + (if Clash(h, d) then [ConflictOf(h, d)] else [])
  }

  function Conflicts(hardware: seq<Change>, daw: seq<Change>): seq<Conflict> {
    if hardware == [] then []
    else Conflicts(hardware[..|hardware| - 1], daw) + ConflictsOf(hardware[|hardware| - 1], daw)
  }

  method DetectConflicts(hardware: seq<Change>, daw: seq<Change>) returns (conflicts: seq<Conflict>)
    ensures conflicts == Conflicts(hardware, daw)
  {
    conflicts := [];
    for i := 0 to |hardware|
      invariant conflicts == Conflicts(hardware[..i], daw)
    {
      assert hardware[..i + 1][..i] == hardware[..i];
      ghost var before := conflicts;
      for j := 0 to |daw|
        invariant conflicts == before + ConflictsOf(hardware[i], daw[..j])
      {
        assert daw[..j + 1][..j] == daw[..j];
        if hardware[i].entityId != daw[j].entityId || hardware[i].field != daw[j].field {
          continue;
        }
        if hardware[i].after == daw[j].after {
          continue;
        }
        var hint := "require_user_review";
        if hardware[i].policy == HardwareAuthoritative {
          hint := "hardware_wins";
        } else if daw[j].policy == DawAuthoritative {
          hint := "daw_wins";
        }
        conflicts := conflicts + [Conflict(hardware[i], daw[j], hint)];
      }
      assert daw[..|daw|] == daw;
    }
    assert hardware[..|hardware|] == hardware;
  }

  /** Both branches change the key, to different values. */
  ghost predicate Disputed(hardware: seq<Change>, daw: seq<Change>, k: Key) {
    exists i, j :: 0 <= i < |hardware| && 0 <= j < |daw| && KeyOf(hardware[i]) == k && Clash(hardware[i], daw[j])
  }

  predicate InConflict(conflicts: seq<Conflict>, k: Key) {
    exists i :: 0 <= i < |conflicts| && KeyOf(conflicts[i].hardware) == k
  }

  // ------------------------------------------------------------------ what the conflict list contains

  /** The hint favours the hardware, if its change claims authority; else the DAW, if its change does. */
  predicate HintIsDue(c: Conflict) {
    && (c.hint == "hardware_wins" <==> c.hardware.policy == HardwareAuthoritative)
    && (c.hint == "daw_wins" <==> c.hardware.policy != HardwareAuthoritative && c.daw.policy == DawAuthoritative)
    && (c.hint == "require_user_review" <==>
          c.hardware.policy != HardwareAuthoritative && c.daw.policy != DawAuthoritative)
  }

  /** The pair (i, j) of a hardware and a DAW change comes before (k, l) in the nested loops. */
  predicate PairBefore(p: (nat, nat), q: (nat, nat)) { p.0 < q.0 || (p.0 == q.0 && p.1 < q.1) }

  /** Both changes set the same field of the same entity, to different values. */
  predicate SetDifferently(h: Change, d: Change) {
    h.entityId == d.entityId && h.field == d.field && h.after != d.after
  }

  /** The conflict is that of the pair: the same key, set to two values, each side in its place. */
  predicate IsConflictOf(c: Conflict, hardware: seq<Change>, daw: seq<Change>, p: (nat, nat)) {
    && p.0 < |hardware| && p.1 < |daw| && c.hardware == hardware[p.0] && c.daw == daw[p.1]
    && SetDifferently(c.hardware, c.daw) && HintIsDue(c)
  }

  /** The pairs that clash, in the order of the nested loops, up to row i and column j of it. */
  function ClashesInRow(h: Change, daw: seq<Change>, i: nat): seq<(nat, nat)> {
    if daw == [] then []
    else
      var earlier := ClashesInRow(h, daw[..|daw| - 1], i);
      if Clash(h, daw[|daw| - 1]) then earlier + [(i, |daw| - 1)] else earlier
  }

  function ClashingPairs(hardware: seq<Change>, daw: seq<Change>): seq<(nat, nat)> {
    if hardware == [] then []
    else
      var n := |hardware| - 1;
      ClashingPairs(hardware[..n], daw) + ClashesInRow(hardware[n], daw, n)
  }

  lemma HintOfConflict(h: Change, d: Change)
    ensures HintIsDue(ConflictOf(h, d)) && ConflictOf(h, d).hardware == h && ConflictOf(h, d).daw == d
  {
    assert "hardware_wins"[0] != "daw_wins"[0] && "require_user_review"[0] != "daw_wins"[0];
    assert "require_user_review"[0] != "hardware_wins"[0];
  }

  lemma {:induction false} RowIsInOrder(h: Change, daw: seq<Change>, i: nat)
    ensures var row, cs := ClashesInRow(h, daw, i), ConflictsOf(h, daw);
            && |row| == |cs|
            && (forall k :: 0 <= k < |row| ==> row[k].0 == i && row[k].1 < |daw| && Clash(h, daw[row[k].1])
                                               && cs[k] == ConflictOf(h, daw[row[k].1]))
            && (forall k, l :: 0 <= k < l < |row| ==> row[k].1 < row[l].1)
            && forall j :: 0 <= j < |daw| && Clash(h, daw[j]) ==> (i, j) in row
  {
    if daw != [] {
      RowIsInOrder(h, daw[..|daw| - 1], i);
    }
  }

  lemma {:induction false} PairsAreInOrder(hardware: seq<Change>, daw: seq<Change>)
    ensures var pairs, cs := ClashingPairs(hardware, daw), Conflicts(hardware, daw);
            && |pairs| == |cs|
            && (forall k :: 0 <= k < |pairs| ==> IsConflictOf(cs[k], hardware, daw, pairs[k]))
            && (forall k, l :: 0 <= k < l < |pairs| ==> PairBefore(pairs[k], pairs[l]))
            && forall i, j :: 0 <= i < |hardware| && 0 <= j < |daw| && Clash(hardware[i], daw[j]) ==> (i, j) in pairs
  {
    if hardware != [] {
      var n := |hardware| - 1;
      PairsAreInOrder(hardware[..n], daw);
      RowIsInOrder(hardware[n], daw, n);
      var front, row := ClashingPairs(hardware[..n], daw), ClashesInRow(hardware[n], daw, n);
      var cs := Conflicts(hardware, daw);
      forall k | 0 <= k < |front + row|
        ensures IsConflictOf(cs[k], hardware, daw, (front + row)[k])
      {
        if k < |front| {
          assert IsConflictOf(Conflicts(hardware[..n], daw)[k], hardware[..n], daw, front[k]);
        } else {
          HintOfConflict(hardware[n], daw[row[k - |front|].1]);
        }
      }
      forall i, j | 0 <= i < |hardware| && 0 <= j < |daw| && Clash(hardware[i], daw[j])
        ensures (i, j) in front + row
      {
        if i < n {
          assert hardware[..n][i] == hardware[i];
          assert (i, j) in front;
        } else {
          assert (i, j) in row;
        }
      }
    }
  }

  /**
   * The conflict list: one conflict for every pair of a hardware and a DAW change that set a key differently, each
   * change on its own side, in hardware order and then DAW order, with the hint that the policies ask for.
   */
  lemma ConflictsInOrder(hardware: seq<Change>, daw: seq<Change>) returns (pairs: seq<(nat, nat)>)
    ensures |pairs| == |Conflicts(hardware, daw)|
    ensures forall k :: 0 <= k < |pairs| ==> IsConflictOf(Conflicts(hardware, daw)[k], hardware, daw, pairs[k])
    ensures forall k, l :: 0 <= k < l < |pairs| ==> PairBefore(pairs[k], pairs[l])
    ensures forall i, j :: 0 <= i < |hardware| && 0 <= j < |daw| && SetDifferently(hardware[i], daw[j])
                           ==> (i, j) in pairs
  {
    PairsAreInOrder(hardware, daw);
    pairs := ClashingPairs(hardware, daw);
    forall i, j | 0 <= i < |hardware| && 0 <= j < |daw| && SetDifferently(hardware[i], daw[j])
      ensures (i, j) in pairs
    {
      assert Clash(hardware[i], daw[j]);
    }
  }

  lemma InConflictConcat(a: seq<Conflict>, b: seq<Conflict>, k: Key)
    ensures InConflict(a + b, k) <==> InConflict(a, k) || InConflict(b, k)
  {
    if InConflict(a, k) {
      var i :| 0 <= i < |a| && KeyOf(a[i].hardware) == k;
      assert (a + b)[i] == a[i];
    }
    if InConflict(b, k) {
      var i :| 0 <= i < |b| && KeyOf(b[i].hardware) == k;
      assert (a + b)[|a| + i] == b[i];
    }
  }

  lemma {:induction false} ConflictsOfAre(h: Change, daw: seq<Change>, k: Key)
    ensures InConflict(ConflictsOf(h, daw), k) <==> KeyOf(h) == k && exists j :: 0 <= j < |daw| && Clash(h, daw[j])
  {
    if daw != [] {
      var n := |daw| - 1;
      ConflictsOfAre(h, daw[..n], k);
      var last := if Clash(h, daw[n]) then [ConflictOf(h, daw[n])] else [];
      InConflictConcat(ConflictsOf(h, daw[..n]), last, k);
      assert Clash(h, daw[n]) ==> last[0].hardware == h;
      if j :| 0 <= j < |daw| && Clash(h, daw[j]) {
        assert j < n ==> daw[..n][j] == daw[j];
      }
    }
  }

  /** The conflict list is about exactly the disputed keys. */
  lemma {:induction false} ConflictsAreDisputes(hardware: seq<Change>, daw: seq<Change>, k: Key)
    ensures InConflict(Conflicts(hardware, daw), k) <==> Disputed(hardware, daw, k)
  {
    if hardware != [] {
      var n := |hardware| - 1;
      ConflictsAreDisputes(hardware[..n], daw, k);
      ConflictsOfAre(hardware[n], daw, k);
      InConflictConcat(Conflicts(hardware[..n], daw), ConflictsOf(hardware[n], daw), k);
      if i, j :| 0 <= i < |hardware| && 0 <= j < |daw| && KeyOf(hardware[i]) == k && Clash(hardware[i], daw[j]) {
        assert i < n ==> hardware[..n][i] == hardware[i];
      }
    }
  }

  lemma DisputeIsMutual(hardware: seq<Change>, daw: seq<Change>, k: Key)
    ensures Disputed(hardware, daw, k) <==> Disputed(daw, hardware, k)
  {
    if i, j :| 0 <= i < |hardware| && 0 <= j < |daw| && KeyOf(hardware[i]) == k && Clash(hardware[i], daw[j]) {
      assert Clash(daw[j], hardware[i]);
    }
    if i, j :| 0 <= i < |daw| && 0 <= j < |hardware| && KeyOf(daw[i]) == k && Clash(daw[i], hardware[j]) {
      assert Clash(hardware[j], daw[i]);
    }
  }

  // ------------------------------------------------------------------ the automatic changes

  function Undisputed(changes: seq<Change>, conflicts: seq<Conflict>): seq<Change> {
    if changes == [] then []
    else
      var c := changes[|changes| - 1];
      var front := Undisputed(changes[..|changes| - 1], conflicts);
      if InConflict(conflicts, KeyOf(c)) then front else front + [c]
  }

  /** The same key already set to the same value by an earlier automatic change. */
  predicate Repeats(automatic: seq<Change>, c: Change) {
    exists i :: 0 <= i < |automatic| && KeyOf(automatic[i]) == KeyOf(c) && automatic[i].after == c.after
  }

  function AppendFresh(automatic: seq<Change>, changes: seq<Change>, conflicts: seq<Conflict>): seq<Change> {
    if changes == [] then automatic
    else
      var c := changes[|changes| - 1];
      var before := AppendFresh(automatic, changes[..|changes| - 1], conflicts);
      if InConflict(conflicts, KeyOf(c)) || Repeats(before, c) then before else before + [c]
  }

  function Automatic(hardware: seq<Change>, daw: seq<Change>): seq<Change> {
    AppendFresh(Undisputed(hardware, Conflicts(hardware, daw)), daw, Conflicts(hardware, daw))
  }

  datatype Choice = KeepHardware | KeepDaw | MergeValue | ExtractSection

  datatype Resolution = Resolution(entityId: string, field: string, choice: Choice, resolvedValue: string)

  function ResolutionKey(r: Resolution): Key { Key(r.entityId, r.field) }

  /** The part of a merge plan that resolving works on. */
  datatype Progress = Progress(conflicts: seq<Conflict>, resolutions: seq<Resolution>, ready: bool)

  function FirstConflict(conflicts: seq<Conflict>, k: Key): (i: nat)
    ensures i <= |conflicts|
    ensures i < |conflicts| ==> KeyOf(conflicts[i].hardware) == k
    ensures forall j :: 0 <= j < i ==> KeyOf(conflicts[j].hardware) != k
  {
    if conflicts == [] then 0
    else if KeyOf(conflicts[0].hardware) == k then 0
    else 1 + FirstConflict(conflicts[1..], k)
  }

  /** The resolution as it is recorded: a kept side brings its own value. */
  function Recorded(p: Progress, r: Resolution): Option<Resolution> {
    var i := FirstConflict(p.conflicts, ResolutionKey(r));
    if i == |p.conflicts| then None
    else
      var value := match r.choice
        case KeepHardware => p.conflicts[i].hardware.after
        case KeepDaw => p.conflicts[i].daw.after
        case _ => r.resolvedValue;
      if value == "" then None else Some(r.(resolvedValue := value))
  }

  function Resolve(p: Progress, r: Resolution): Progress {
    match Recorded(p, r)
    case None => p
    case Some(recorded) =>
      var resolutions := p.resolutions + [recorded];
      Progress(p.conflicts, resolutions, |resolutions| == |p.conflicts|)
  }

  class SessionMergePlan {
    const hardware: seq<Change>
    const daw: seq<Change>
    var automaticChanges: seq<Change>
    var conflicts: seq<Conflict>
    var resolutions: seq<Resolution>
    var readyToApply: bool

    function Value(): Progress
      reads this
    {
      Progress(conflicts, resolutions, readyToApply)
    }

    constructor (hardware: seq<Change>, daw: seq<Change>)
      ensures this.hardware == hardware && this.daw == daw
      ensures automaticChanges == Automatic(hardware, daw)
      ensures Value() == Progress(Conflicts(hardware, daw), [], Conflicts(hardware, daw) == [])
    {
      this.hardware, this.daw := hardware, daw;
      automaticChanges, conflicts, resolutions, readyToApply := [], [], [], false;
      new;
      conflicts := DetectConflicts(hardware, daw);
      for i := 0 to |hardware|
        invariant conflicts == Conflicts(hardware, daw) && resolutions == []
        invariant automaticChanges == Undisputed(hardware[..i], conflicts)
      {
        assert hardware[..i + 1][..i] == hardware[..i];
        if !InConflict(conflicts, KeyOf(hardware[i])) {
          automaticChanges := automaticChanges + [hardware[i]];
        }
      }
      assert hardware[..|hardware|] == hardware;
      for i := 0 to |daw|
        invariant conflicts == Conflicts(hardware, daw) && resolutions == []
        invariant automaticChanges == AppendFresh(Undisputed(hardware, conflicts), daw[..i], conflicts)
      {
        assert daw[..i + 1][..i] == daw[..i];
        if InConflict(conflicts, KeyOf(daw[i])) {
          continue;
        }
        if !Repeats(automaticChanges, daw[i]) {
          automaticChanges := automaticChanges + [daw[i]];
        }
      }
      assert daw[..|daw|] == daw;
      readyToApply := conflicts == [];
    }

    method ResolveConflict(resolution: Resolution) returns (recorded: bool)
      modifies this`resolutions, this`readyToApply
      ensures Value() == Resolve(old(Value()), resolution)
      ensures recorded == Recorded(old(Value()), resolution).Some?
    {
      var i := FirstConflict(conflicts, ResolutionKey(resolution));
      if i == |conflicts| {
        return false;
      }
      var r := resolution;
      if r.choice == KeepHardware {
        r := r.(resolvedValue := conflicts[i].hardware.after);
      }
      if r.choice == KeepDaw {
        r := r.(resolvedValue := conflicts[i].daw.after);
      }
      if r.resolvedValue == "" {
        return false;
      }
      resolutions := resolutions + [r];
      readyToApply := |resolutions| == |conflicts|;
      return true;
    }
  }
}
