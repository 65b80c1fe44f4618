/** What a merge plan means: the state its automatic changes leave, key by key. */
module MergeCorrectness {
  import opened SessionMerge
  import opened Wrappers

  type State = map<Key, string>

  function Apply(s: State, changes: seq<Change>): State {
    if changes == [] then s
    else
      var c := changes[|changes| - 1];
      Apply(s, changes[..|changes| - 1])[KeyOf(c) := c.after]
  }

  function Lookup(s: State, k: Key): Option<string> { if k in s then Some(s[k]) else None }

  /** The values a branch writes to one key, in order. */
  function Values(changes: seq<Change>, k: Key): seq<string> {
    if changes == [] then []
    else
      var c := changes[|changes| - 1];
      var front := Values(changes[..|changes| - 1], k);
      if KeyOf(c) == k then front + [c.after] else front
  }

  function LastOr(vs: seq<string>, otherwise: Option<string>): Option<string> {
    if vs == [] then otherwise else Some(vs[|vs| - 1])
  }

  /** Applying changes leaves at each key the last value written to it. */
  lemma {:induction false} ApplyAt(s: State, changes: seq<Change>, k: Key)
    ensures Lookup(Apply(s, changes), k) == LastOr(Values(changes, k), Lookup(s, k))
  {
    if changes != [] {
      ApplyAt(s, changes[..|changes| - 1], k);
    }
  }

  lemma {:induction false} ValueHasChange(changes: seq<Change>, k: Key, v: string)
    ensures v in Values(changes, k)
            <==> exists i :: 0 <= i < |changes| && KeyOf(changes[i]) == k && changes[i].after == v
  {
    if changes != [] {
      var n := |changes| - 1;
      ValueHasChange(changes[..n], k, v);
      if i :| 0 <= i < |changes| && KeyOf(changes[i]) == k && changes[i].after == v {
        assert i < n ==> changes[..n][i] == changes[i];
      }
    }
  }

  // ------------------------------------------------------------------ the automatic changes at one key

  /** Appending values that are not yet present, one by one. */
  function AppendNew(vs: seq<string>, more: seq<string>): seq<string> {
    if more == [] then vs
    else
      var before := AppendNew(vs, more[..|more| - 1]);
      var v := more[|more| - 1];
      if v in before then before else before + [v]
  }

  lemma ValuesAppend(changes: seq<Change>, c: Change, k: Key)
    ensures Values(changes + [c], k) == if KeyOf(c) == k then Values(changes, k) + [c.after] else Values(changes, k)
  {
    assert (changes + [c])[..|changes|] == changes;
  }

  lemma AppendNewStep(vs: seq<string>, more: seq<string>, v: string)
    ensures AppendNew(vs, more + [v])
         == if v in AppendNew(vs, more) then AppendNew(vs, more) else AppendNew(vs, more) + [v]
  {
    assert (more + [v])[..|more|] == more;
  }

  lemma {:induction false} UndisputedAt(changes: seq<Change>, conflicts: seq<Conflict>, k: Key)
    ensures Values(Undisputed(changes, conflicts), k) == if InConflict(conflicts, k) then [] else Values(changes, k)
  {
    if changes != [] {
      var n := |changes| - 1;
      UndisputedAt(changes[..n], conflicts, k);
      ValuesAppend(Undisputed(changes[..n], conflicts), changes[n], k);
    }
  }

  lemma {:induction false} AppendFreshAt(automatic: seq<Change>, changes: seq<Change>, conflicts: seq<Conflict>, k: Key)
    ensures Values(AppendFresh(automatic, changes, conflicts), k)
         == if InConflict(conflicts, k) then Values(automatic, k)
            else AppendNew(Values(automatic, k), Values(changes, k))
  {
    if changes != [] {
      var n := |changes| - 1;
      var c := changes[n];
      AppendFreshAt(automatic, changes[..n], conflicts, k);
      var before := AppendFresh(automatic, changes[..n], conflicts);
      ValuesAppend(before, c, k);
      if KeyOf(c) == k {
        ValueHasChange(before, k, c.after);
        AppendNewStep(Values(automatic, k), Values(changes[..n], k), c.after);
      }
    }
  }

  lemma AutomaticAt(hardware: seq<Change>, daw: seq<Change>, k: Key)
    ensures Values(Automatic(hardware, daw), k)
         == if Disputed(hardware, daw, k) then [] else AppendNew(Values(hardware, k), Values(daw, k))
  {
    var conflicts := Conflicts(hardware, daw);
    ConflictsAreDisputes(hardware, daw, k);
    UndisputedAt(hardware, conflicts, k);
    AppendFreshAt(Undisputed(hardware, conflicts), daw, conflicts, k);
  }

  /** At an undisputed key the two branches never write different values. */
  lemma UndisputedValuesAgree(hardware: seq<Change>, daw: seq<Change>, k: Key, u: string, v: string)
    requires !Disputed(hardware, daw, k) && u in Values(hardware, k) && v in Values(daw, k)
    ensures u == v
  {
    ValueHasChange(hardware, k, u);
    ValueHasChange(daw, k, v);
    var i :| 0 <= i < |hardware| && KeyOf(hardware[i]) == k && hardware[i].after == u;
    var j :| 0 <= j < |daw| && KeyOf(daw[j]) == k && daw[j].after == v;
    assert !Clash(hardware[i], daw[j]);
  }

  // ------------------------------------------------------------------ dropping repeated values

  /** The branch does not come back to its final value after having written something new in between. */
  ghost predicate NoReturn(vs: seq<string>) {
    forall i, j :: 0 <= i < j < |vs| && vs[i] == vs[|vs| - 1] ==> vs[j] in vs[..i + 1]
  }

  lemma {:induction false} AppendNewKeepsMembers(vs: seq<string>, more: seq<string>, v: string)
    ensures v in AppendNew(vs, more) <==> v in vs || v in more
  {
    if more != [] {
      var n := |more| - 1;
      AppendNewKeepsMembers(vs, more[..n], v);
      AppendNewKeepsMembers(vs, more[..n], more[n]);
      assert more == more[..n] + [more[n]];
    }
  }

  lemma {:induction false} AppendNewIgnoresPresent(vs: seq<string>, more: seq<string>)
    requires forall i :: 0 <= i < |more| ==> more[i] in vs
    ensures AppendNew(vs, more) == vs
  {
    if more != [] {
      AppendNewIgnoresPresent(vs, more[..|more| - 1]);
    }
  }

  /** f is the last index at which a value occurs for the first time. */
  ghost predicate LastFirst(vs: seq<string>, f: nat) {
    f < |vs| && vs[f] !in vs[..f] && forall j :: f < j < |vs| ==> vs[j] in vs[..f + 1]
  }

  /** The last value kept is the one whose first occurrence comes last: everything after that is old. */
  lemma {:induction false} LastKept(vs: seq<string>) returns (f: nat)
    requires vs != []
    ensures LastFirst(vs, f)
    ensures AppendNew([], vs) != [] && AppendNew([], vs)[|AppendNew([], vs)| - 1] == vs[f]
  {
    var n := |vs| - 1;
    AppendNewKeepsMembers([], vs[..n], vs[n]);
    if vs[n] in vs[..n] {
      f := LastKept(vs[..n]);
      assert vs[..n][..f] == vs[..f] && vs[..n][..f + 1] == vs[..f + 1];
      assert vs[n] in vs[..f + 1] by {
        var j :| 0 <= j < n && vs[j] == vs[n];
        assert j > f ==> vs[..n][j] in vs[..f + 1];
        assert j <= f ==> vs[..f + 1][j] == vs[n];
      }
    } else {
      f := n;
    }
  }

  lemma {:induction false} NoReturnWhenLast(vs: seq<string>, f: nat)
    requires LastFirst(vs, f) && vs[f] == vs[|vs| - 1]
    ensures NoReturn(vs)
  {
    forall i, j | 0 <= i < j < |vs| && vs[i] == vs[|vs| - 1]
      ensures vs[j] in vs[..i + 1]
    {
      assert forall m :: 0 <= m < f ==> vs[..f][m] == vs[m];
      var m :| 0 <= m < f + 1 && vs[..f + 1][m] == vs[j];
      assert vs[..i + 1][m] == vs[j];
    }
  }

  lemma {:induction false} ReturnWhenNotLast(vs: seq<string>, f: nat)
    requires LastFirst(vs, f) && vs[f] != vs[|vs| - 1]
    ensures !NoReturn(vs)
  {
    var last := vs[|vs| - 1];
    var i :| 0 <= i < f + 1 && vs[..f + 1][i] == last;
    assert vs[i] == last && i < f;
    assert vs[..i + 1] == vs[..f][..i + 1];
    assert vs[f] !in vs[..i + 1];
  }

  lemma {:induction false} KeepingFirstsKeepsLastExactly(vs: seq<string>)
    requires vs != []
    ensures LastOr(AppendNew([], vs), None) == Some(vs[|vs| - 1]) <==> NoReturn(vs)
  {
    var f := LastKept(vs);
    LastFirstDecides(vs, f);
    assert LastOr(AppendNew([], vs), None) == Some(vs[f]);
  }

  lemma LastFirstDecides(vs: seq<string>, f: nat)
    requires LastFirst(vs, f)
    ensures vs[f] == vs[|vs| - 1] <==> NoReturn(vs)
  {
    if vs[f] == vs[|vs| - 1] {
      NoReturnWhenLast(vs, f);
    } else {
      ReturnWhenNotLast(vs, f);
    }
  }

  // ------------------------------------------------------------------ the merged state

  /** A disputed key is left as it was. */
  lemma DisputedKeysAreUntouched(s: State, hardware: seq<Change>, daw: seq<Change>, k: Key)
    requires Disputed(hardware, daw, k)
    ensures Lookup(Apply(s, Automatic(hardware, daw)), k) == Lookup(s, k)
  {
    AutomaticAt(hardware, daw, k);
    ApplyAt(s, Automatic(hardware, daw), k);
  }

  /** At an undisputed key the order in which the branches are applied does not matter. */
  lemma OrderIsIrrelevant(s: State, hardware: seq<Change>, daw: seq<Change>, k: Key)
    requires !Disputed(hardware, daw, k)
    ensures Lookup(Apply(Apply(s, hardware), daw), k) == Lookup(Apply(Apply(s, daw), hardware), k)
  {
    ApplyAt(s, hardware, k);
    ApplyAt(s, daw, k);
    ApplyAt(Apply(s, hardware), daw, k);
    ApplyAt(Apply(s, daw), hardware, k);
    var hs, ds := Values(hardware, k), Values(daw, k);
    if hs != [] && ds != [] {
      UndisputedValuesAgree(hardware, daw, k, hs[|hs| - 1], ds[|ds| - 1]);
    }
  }

  /**
   * The automatic changes leave an undisputed key with the value both branches give it exactly when the
   * hardware branch also writes it, or the DAW branch does not return to an earlier value of its own:
   * the duplicate filter drops that return.
   */
  lemma MergedExactly(s: State, hardware: seq<Change>, daw: seq<Change>, k: Key)
    requires !Disputed(hardware, daw, k)
    ensures Lookup(Apply(s, Automatic(hardware, daw)), k) == Lookup(Apply(Apply(s, hardware), daw), k)
            <==> Values(hardware, k) != [] || NoReturn(Values(daw, k))
  {
    AutomaticAt(hardware, daw, k);
    ApplyAt(s, Automatic(hardware, daw), k);
    ApplyAt(s, hardware, k);
    ApplyAt(Apply(s, hardware), daw, k);
    if Values(hardware, k) != [] {
      HardwareValuePrevails(hardware, daw, k);
    } else {
      DawValuePrevails(Values(daw, k), Lookup(s, k));
    }
  }

  lemma DawValuePrevails(ds: seq<string>, otherwise: Option<string>)
    ensures LastOr(AppendNew([], ds), otherwise) == LastOr(ds, otherwise) <==> NoReturn(ds)
  {
    if ds != [] {
      KeepingFirstsKeepsLastExactly(ds);
      var f := LastKept(ds);
    }
  }

  lemma HardwareValuePrevails(hardware: seq<Change>, daw: seq<Change>, k: Key)
    requires !Disputed(hardware, daw, k) && Values(hardware, k) != []
    ensures AppendNew(Values(hardware, k), Values(daw, k)) == Values(hardware, k)
    ensures LastOr(Values(daw, k), LastOr(Values(hardware, k), None)) == LastOr(Values(hardware, k), None)
  {
    var hs, ds := Values(hardware, k), Values(daw, k);
    forall v | v in ds
      ensures v in hs && v == hs[|hs| - 1]
    {
      UndisputedValuesAgree(hardware, daw, k, hs[|hs| - 1], v);
    }
    AppendNewIgnoresPresent(hs, ds);
  }

  lemma ValuesOfThree(x: Change, y: Change, k: Key)
    requires KeyOf(x) == KeyOf(y) == k
    ensures Values([x, y, x], k) == [x.after, y.after, x.after]
  {
    assert [x, y, x][..2] == [x, y] && [x, y][..1] == [x] && [x][..0] == [];
    assert Values([x], k) == [x.after];
    assert Values([x, y], k) == [x.after, y.after];
  }

  lemma ReturnIsDropped(v: string, w: string)
    requires v != w
    ensures AppendNew([], [v, w, v]) == [v, w]
  {
    assert [v, w, v][..2] == [v, w] && [v, w][..1] == [v] && [v][..0] == [];
    assert AppendNew([], [v]) == [v];
    assert AppendNew([], [v, w]) == [v, w];
  }

  /** A DAW branch that sets a key, resets it and sets it again loses the last of the three writes. */
  lemma SetResetSetLosesLastWrite(s: State, entity: string, field: string, policy: SessionCodec.SyncPolicy)
    ensures var daw := [Change(entity, field, "a", "b", policy), Change(entity, field, "b", "a", policy),
                        Change(entity, field, "a", "b", policy)];
            var k := Key(entity, field);
            && Lookup(Apply(s, daw), k) == Some("b")
            && Lookup(Apply(s, Automatic([], daw)), k) == Some("a")
  {
    var x, y := Change(entity, field, "a", "b", policy), Change(entity, field, "b", "a", policy);
    var daw, k := [x, y, x], Key(entity, field);
    ValuesOfThree(x, y, k);
    ApplyAt(s, daw, k);
    AutomaticAt([], daw, k);
    ApplyAt(s, Automatic([], daw), k);
    assert "a"[0] != "b"[0];
    ReturnIsDropped("b", "a");
  }

  ghost predicate OncePerKey(changes: seq<Change>) {
    forall i, j :: 0 <= i < j < |changes| ==> KeyOf(changes[i]) != KeyOf(changes[j])
  }

  lemma {:induction false} OnceGivesOneValue(changes: seq<Change>, k: Key)
    requires OncePerKey(changes)
    ensures |Values(changes, k)| <= 1
    ensures Values(changes, k) != [] <==> exists i :: 0 <= i < |changes| && KeyOf(changes[i]) == k
  {
    if changes != [] {
      var n := |changes| - 1;
      OnceGivesOneValue(changes[..n], k);
      if i :| 0 <= i < |changes| && KeyOf(changes[i]) == k {
        assert i < n ==> changes[..n][i] == changes[i];
      }
    }
  }

  /** What the automatic changes should leave: the base at disputed keys, both branches applied everywhere else. */
  ghost predicate IsMergeOf(t: State, s: State, hardware: seq<Change>, daw: seq<Change>) {
    forall k: Key ::
      Lookup(t, k) == if Disputed(hardware, daw, k) then Lookup(s, k) else Lookup(Apply(Apply(s, hardware), daw), k)
  }

  /** The DAW branch's last write to the key is not lost. */
  ghost predicate Merges(hardware: seq<Change>, daw: seq<Change>, k: Key) {
    Values(hardware, k) != [] || NoReturn(Values(daw, k))
  }

  /** The automatic changes are a correct merge exactly when no key without a conflict loses a write. */
  lemma MergeIsCorrectExactly(s: State, hardware: seq<Change>, daw: seq<Change>)
    ensures IsMergeOf(Apply(s, Automatic(hardware, daw)), s, hardware, daw)
            <==> forall k: Key :: !Disputed(hardware, daw, k) ==> Merges(hardware, daw, k)
  {
    var t := Apply(s, Automatic(hardware, daw));
    forall k: Key
      ensures Disputed(hardware, daw, k) ==> Lookup(t, k) == Lookup(s, k)
      ensures !Disputed(hardware, daw, k) ==>
                (Lookup(t, k) == Lookup(Apply(Apply(s, hardware), daw), k) <==> Merges(hardware, daw, k))
    {
      if Disputed(hardware, daw, k) {
        DisputedKeysAreUntouched(s, hardware, daw, k);
      } else {
        MergedExactly(s, hardware, daw, k);
      }
    }
  }

  /** When each branch changes a key at most once, the automatic changes are a correct merge. */
  lemma MergeIsCorrect(s: State, hardware: seq<Change>, daw: seq<Change>)
    requires OncePerKey(hardware) && OncePerKey(daw)
    ensures IsMergeOf(Apply(s, Automatic(hardware, daw)), s, hardware, daw)
  {
    MergeIsCorrectExactly(s, hardware, daw);
    forall k: Key
      ensures Merges(hardware, daw, k)
    {
      OnceGivesOneValue(daw, k);
    }
  }

  // ------------------------------------------------------------------ swapping the branches

  /** The two orders of the branches leave the key with the same value. */
  lemma SwappedAt(s: State, hardware: seq<Change>, daw: seq<Change>, k: Key)
    ensures Lookup(Apply(s, Automatic(hardware, daw)), k) == Lookup(Apply(s, Automatic(daw, hardware)), k)
            <==> Disputed(hardware, daw, k) || (Merges(hardware, daw, k) && Merges(daw, hardware, k))
  {
    DisputeIsMutual(hardware, daw, k);
    if Disputed(hardware, daw, k) {
      DisputedKeysAreUntouched(s, hardware, daw, k);
      DisputedKeysAreUntouched(s, daw, hardware, k);
    } else {
      MergedExactly(s, hardware, daw, k);
      MergedExactly(s, daw, hardware, k);
      OrderIsIrrelevant(s, hardware, daw, k);
    }
  }

  /** Both branches write the key, or neither comes back to an earlier value of its own. */
  ghost predicate Swappable(hardware: seq<Change>, daw: seq<Change>, k: Key) {
    || (Values(hardware, k) != [] && Values(daw, k) != [])
    || (NoReturn(Values(hardware, k)) && NoReturn(Values(daw, k)))
  }

  /** Equal at every key is equal. */
  lemma SameLookups(t: State, u: State)
    requires forall k: Key :: Lookup(t, k) == Lookup(u, k)
    ensures t == u
  {
    forall k: Key
      ensures k in t <==> k in u
      ensures k in t ==> t[k] == u[k]
    {
      assert Lookup(t, k) == Lookup(u, k);
    }
  }

  /**
   * Swapping the branches never changes which keys are in conflict. It keeps the merged state exactly when at every
   * key without a conflict both branches write, or neither comes back to an earlier value of its own.
   */
  lemma MergeIsSymmetricExactly(s: State, hardware: seq<Change>, daw: seq<Change>)
    ensures Apply(s, Automatic(hardware, daw)) == Apply(s, Automatic(daw, hardware))
            <==> forall k: Key :: Disputed(hardware, daw, k) || Swappable(hardware, daw, k)
    ensures forall k: Key :: InConflict(Conflicts(hardware, daw), k) <==> InConflict(Conflicts(daw, hardware), k)
  {
    var t, u := Apply(s, Automatic(hardware, daw)), Apply(s, Automatic(daw, hardware));
    forall k: Key
      ensures Lookup(t, k) == Lookup(u, k) <==> Disputed(hardware, daw, k) || Swappable(hardware, daw, k)
      ensures InConflict(Conflicts(hardware, daw), k) <==> InConflict(Conflicts(daw, hardware), k)
    {
      SwappedAt(s, hardware, daw, k);
      DisputeIsMutual(hardware, daw, k);
      ConflictsAreDisputes(hardware, daw, k);
      ConflictsAreDisputes(daw, hardware, k);
    }
    if forall k: Key :: Lookup(t, k) == Lookup(u, k) {
      SameLookups(t, u);
    }
  }

  /** Branches that change each key at most once can be swapped. */
  lemma MergeIsSymmetric(s: State, hardware: seq<Change>, daw: seq<Change>)
    requires OncePerKey(hardware) && OncePerKey(daw)
    ensures Apply(s, Automatic(hardware, daw)) == Apply(s, Automatic(daw, hardware))
    ensures forall k: Key :: InConflict(Conflicts(hardware, daw), k) <==> InConflict(Conflicts(daw, hardware), k)
  {
    MergeIsSymmetricExactly(s, hardware, daw);
    forall k: Key
      ensures Swappable(hardware, daw, k)
    {
      OnceGivesOneValue(hardware, k);
      OnceGivesOneValue(daw, k);
    }
  }

  // ------------------------------------------------------------------ the automatic changes themselves

  lemma {:induction false} UndisputedAre(changes: seq<Change>, conflicts: seq<Conflict>, c: Change)
    ensures c in Undisputed(changes, conflicts) <==> c in changes && !InConflict(conflicts, KeyOf(c))
  {
    if changes != [] {
      var n := |changes| - 1;
      UndisputedAre(changes[..n], conflicts, c);
      assert changes == changes[..n] + [changes[n]];
    }
  }

  /** The list sets the key of this change to the value of this change. */
  predicate Sets(changes: seq<Change>, c: Change) {
    exists i :: 0 <= i < |changes|
                && changes[i].entityId == c.entityId && changes[i].field == c.field && changes[i].after == c.after
  }

  lemma {:induction false} FreshAre(automatic: seq<Change>, changes: seq<Change>, conflicts: seq<Conflict>, c: Change)
    ensures var all := AppendFresh(automatic, changes, conflicts);
            && automatic <= all
            && (c in all ==> c in automatic || (c in changes && !InConflict(conflicts, KeyOf(c))))
            && (c in changes && !InConflict(conflicts, KeyOf(c)) ==> Sets(all, c))
  {
    if changes != [] {
      var n := |changes| - 1;
      var before, all := AppendFresh(automatic, changes[..n], conflicts), AppendFresh(automatic, changes, conflicts);
      FreshAre(automatic, changes[..n], conflicts, c);
      assert changes == changes[..n] + [changes[n]];
      if Sets(before, c) {
        var i :| 0 <= i < |before|
                 && before[i].entityId == c.entityId && before[i].field == c.field && before[i].after == c.after;
        assert all[i] == before[i];
      }
      if c == changes[n] && all == before + [c] {
        assert all[|before|] == c;
      }
    }
  }

  /**
   * The automatic changes are changes of the two branches on keys not in dispute: all those of the hardware, and of
   * those of the DAW as many as it takes to set every such key to every value that the DAW sets it to.
   */
  lemma AutomaticExactly(hardware: seq<Change>, daw: seq<Change>, c: Change)
    ensures var all := Automatic(hardware, daw);
            && (c in all ==> (c in hardware || c in daw) && !Disputed(hardware, daw, KeyOf(c)))
            && (c in hardware && !Disputed(hardware, daw, KeyOf(c)) ==> c in all)
            && (c in daw && !Disputed(hardware, daw, KeyOf(c)) ==> Sets(all, c))
  {
    var conflicts := Conflicts(hardware, daw);
    ConflictsAreDisputes(hardware, daw, KeyOf(c));
    UndisputedAre(hardware, conflicts, c);
    FreshAre(Undisputed(hardware, conflicts), daw, conflicts, c);
  }
}
