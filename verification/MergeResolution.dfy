/** What a resolution puts on record: whose value, and when nothing. */
module MergeResolution {
  import opened MergeCorrectness
  import opened SessionMerge
  import opened Wrappers

  /** The hardware and the DAW change on this key that differ, first in the order of the branches. */
  ghost predicate FirstDifference(hardware: seq<Change>, daw: seq<Change>, k: Key, i: nat, j: nat) {
    && i < |hardware| && j < |daw| && KeyOf(hardware[i]) == k && SetDifferently(hardware[i], daw[j])
    && forall m: nat, n: nat ::
         m < |hardware| && n < |daw| && KeyOf(hardware[m]) == k && SetDifferently(hardware[m], daw[n])
         ==> (i, j) == (m, n) || PairBefore((i, j), (m, n))
  }

  lemma {:induction false} OnlyOneIsFirst(pairs: seq<(nat, nat)>, f: nat, m: nat)
    requires f <= m < |pairs|
    requires forall k, l :: 0 <= k < l < |pairs| ==> PairBefore(pairs[k], pairs[l])
    requires pairs[m] == pairs[f] || PairBefore(pairs[m], pairs[f])
    ensures f == m
  {
    assert !PairBefore(pairs[f], pairs[m]);
  }

  /** The conflict that is found for a key is that of the first difference. */
  lemma {:induction false} FoundConflict(hardware: seq<Change>, daw: seq<Change>, k: Key, i: nat, j: nat)
    requires FirstDifference(hardware, daw, k, i, j)
    ensures var cs := Conflicts(hardware, daw);
            var f := FirstConflict(cs, k);
            f < |cs| && cs[f].hardware == hardware[i] && cs[f].daw == daw[j]
  {
    var pairs := ConflictsInOrder(hardware, daw);
    var cs := Conflicts(hardware, daw);
    var f := FirstConflict(cs, k);
    var m :| 0 <= m < |pairs| && pairs[m] == (i, j);
    assert IsConflictOf(cs[m], hardware, daw, pairs[m]);
    assert f <= m;
    assert IsConflictOf(cs[f], hardware, daw, pairs[f]);
    OnlyOneIsFirst(pairs, f, m);
  }

  /**
   * A resolution of a key in dispute is recorded unless its value is empty: keeping the hardware brings the value of
   * the hardware change in the first difference, keeping the DAW that of its DAW change, any other choice its own.
   */
  lemma {:induction false} RecordedExactly(hardware: seq<Change>, daw: seq<Change>, resolutions: seq<Resolution>,
                                           ready: bool, r: Resolution, i: nat, j: nat)
    requires FirstDifference(hardware, daw, Key(r.entityId, r.field), i, j)
    ensures var value := if r.choice == KeepHardware then hardware[i].after
                         else if r.choice == KeepDaw then daw[j].after
                         else r.resolvedValue;
            Recorded(Progress(Conflicts(hardware, daw), resolutions, ready), r)
              == if value == "" then None else Some(Resolution(r.entityId, r.field, r.choice, value))
  {
    FoundConflict(hardware, daw, Key(r.entityId, r.field), i, j);
  }

  /** On a key that is not in dispute nothing is recorded. */
  lemma {:induction false} UndisputedIsNotRecorded(hardware: seq<Change>, daw: seq<Change>,
                                                   resolutions: seq<Resolution>, ready: bool, r: Resolution)
    requires forall i, j :: 0 <= i < |hardware| && 0 <= j < |daw| && SetDifferently(hardware[i], daw[j])
                            ==> KeyOf(hardware[i]) != Key(r.entityId, r.field)
    ensures Recorded(Progress(Conflicts(hardware, daw), resolutions, ready), r) == None
  {
    var cs, k := Conflicts(hardware, daw), Key(r.entityId, r.field);
    var pairs := ConflictsInOrder(hardware, daw);
    forall m | 0 <= m < |cs|
      ensures KeyOf(cs[m].hardware) != k
    {
      assert IsConflictOf(cs[m], hardware, daw, pairs[m]);
    }
  }

  /** When each branch changes a key once, keeping a side brings the one value that side gives the key. */
  lemma {:induction false} KeptSideBringsItsValue(hardware: seq<Change>, daw: seq<Change>,
                                                  resolutions: seq<Resolution>, ready: bool, r: Resolution, i: nat,
                                                  j: nat)
    requires OncePerKey(hardware) && OncePerKey(daw)
    requires i < |hardware| && j < |daw| && KeyOf(hardware[i]) == Key(r.entityId, r.field)
    requires SetDifferently(hardware[i], daw[j])
    ensures Values(hardware, KeyOf(hardware[i])) == [hardware[i].after]
    ensures Values(daw, KeyOf(hardware[i])) == [daw[j].after]
    ensures var p := Progress(Conflicts(hardware, daw), resolutions, ready);
            && (r.choice == KeepHardware && hardware[i].after != "" ==>
                  Recorded(p, r) == Some(r.(resolvedValue := hardware[i].after)))
            && (r.choice == KeepDaw && daw[j].after != "" ==>
                  Recorded(p, r) == Some(r.(resolvedValue := daw[j].after)))
  {
    OnlyValue(hardware, i);
    OnlyValue(daw, j);
    RecordedExactly(hardware, daw, resolutions, ready, r, i, j);
  }

  lemma {:induction false} OnlyValue(changes: seq<Change>, i: nat)
    requires OncePerKey(changes) && i < |changes|
    ensures Values(changes, KeyOf(changes[i])) == [changes[i].after]
  {
    var n := |changes| - 1;
    var k := KeyOf(changes[i]);
    if i < n {
      OnlyValue(changes[..n], i);
    } else {
      OnceGivesOneValue(changes[..n], k);
    }
  }
}
