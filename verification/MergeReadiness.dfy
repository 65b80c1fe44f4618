/** Readiness of a merge plan by comparing two counts: when it means that everything is resolved. */
module MergeReadiness {
  import opened MergeCorrectness
  import opened SessionMerge
  import opened Wrappers

  function ResolveAll(p: Progress, requests: seq<Resolution>): Progress {
    if requests == [] then p else Resolve(ResolveAll(p, requests[..|requests| - 1]), requests[|requests| - 1])
  }

  function ConflictKeys(conflicts: seq<Conflict>): seq<Key> {
    seq(|conflicts|, i requires 0 <= i < |conflicts| => KeyOf(conflicts[i].hardware))
  }

  function ResolutionKeys(resolutions: seq<Resolution>): seq<Key> {
    seq(|resolutions|, j requires 0 <= j < |resolutions| => ResolutionKey(resolutions[j]))
  }

  ghost predicate Distinct<T>(s: seq<T>) {
    forall i, j :: 0 <= i < j < |s| ==> s[i] != s[j]
  }

  ghost predicate DistinctConflicts(conflicts: seq<Conflict>) { Distinct(ConflictKeys(conflicts)) }

  ghost predicate NoKeyTwice(resolutions: seq<Resolution>) { Distinct(ResolutionKeys(resolutions)) }

  ghost predicate AllResolved(p: Progress) {
    forall k :: k in ConflictKeys(p.conflicts) ==> k in ResolutionKeys(p.resolutions)
  }

  /** Every resolution answers a conflict, and readiness is the comparison of the two counts. */
  ghost predicate Counted(p: Progress) {
    && p.ready == (|p.resolutions| == |p.conflicts|)
    && forall j :: 0 <= j < |p.resolutions| ==> InConflict(p.conflicts, ResolutionKey(p.resolutions[j]))
  }

  lemma {:induction false} RunIsCounted(conflicts: seq<Conflict>, requests: seq<Resolution>)
    ensures var p := ResolveAll(Progress(conflicts, [], conflicts == []), requests);
            p.conflicts == conflicts && Counted(p)
  {
    if requests != [] {
      var n := |requests| - 1;
      RunIsCounted(conflicts, requests[..n]);
      var p := ResolveAll(Progress(conflicts, [], conflicts == []), requests[..n]);
      var i := FirstConflict(p.conflicts, ResolutionKey(requests[n]));
    }
  }

  function Elements<T>(s: seq<T>): set<T> { set x | x in s }

  lemma {:induction false} CountElements<T>(s: seq<T>)
    ensures |Elements(s)| <= |s|
    ensures |Elements(s)| == |s| <==> Distinct(s)
  {
    if s != [] {
      var n := |s| - 1;
      CountElements(s[..n]);
      assert s == s[..n] + [s[n]];
      assert Elements(s) == Elements(s[..n]) + {s[n]};
      if s[n] in s[..n] {
        var i :| 0 <= i < n && s[..n][i] == s[n];
        assert s[i] == s[n];
      }
    }
  }

  lemma SubsetCount<T>(a: set<T>, b: set<T>)
    requires a <= b
    ensures |a| <= |b|
    ensures |a| == |b| ==> a == b
  {
    assert b == a + (b - a);
    assert |b| == |a| + |b - a|;
  }

  /** Resolution keys are conflict keys, and all of them exactly when everything is resolved. */
  lemma ResolvedKeys(p: Progress)
    requires Counted(p)
    ensures Elements(ResolutionKeys(p.resolutions)) <= Elements(ConflictKeys(p.conflicts))
    ensures AllResolved(p) <==> Elements(ResolutionKeys(p.resolutions)) == Elements(ConflictKeys(p.conflicts))
  {
    var r, c := ResolutionKeys(p.resolutions), ConflictKeys(p.conflicts);
    forall k | k in r
      ensures k in c
    {
      var j :| 0 <= j < |r| && r[j] == k;
      assert InConflict(p.conflicts, ResolutionKey(p.resolutions[j]));
      var i :| 0 <= i < |p.conflicts| && KeyOf(p.conflicts[i].hardware) == k;
      assert c[i] == k;
    }
    if Elements(r) == Elements(c) {
      forall k | k in c
        ensures k in r
      {
        assert k in Elements(c);
      }
    }
  }

  lemma CompareCounts(p: Progress)
    requires Counted(p)
    ensures var r, c := |Elements(ResolutionKeys(p.resolutions))|, |Elements(ConflictKeys(p.conflicts))|;
            && r <= c && r <= |p.resolutions| && c <= |p.conflicts|
            && (r == c <==> AllResolved(p))
            && (r == |p.resolutions| <==> NoKeyTwice(p.resolutions))
            && (c == |p.conflicts| <==> DistinctConflicts(p.conflicts))
  {
    CountElements(ConflictKeys(p.conflicts));
    CountElements(ResolutionKeys(p.resolutions));
    ResolvedKeys(p);
    SubsetCount(Elements(ResolutionKeys(p.resolutions)), Elements(ConflictKeys(p.conflicts)));
  }

  /**
   * Readiness by counting, over every run of resolutions. With one conflict per key, any two of these give the
   * third: the plan is ready; every conflict is resolved; no key was resolved twice.
   */
  lemma ReadinessByCounting(conflicts: seq<Conflict>, requests: seq<Resolution>)
    requires DistinctConflicts(conflicts)
    ensures var p := ResolveAll(Progress(conflicts, [], conflicts == []), requests);
            && (NoKeyTwice(p.resolutions) ==> (p.ready <==> AllResolved(p)))
            && (AllResolved(p) ==> (p.ready <==> NoKeyTwice(p.resolutions)))
            && (p.ready ==> (AllResolved(p) <==> NoKeyTwice(p.resolutions)))
  {
    RunIsCounted(conflicts, requests);
    var p := ResolveAll(Progress(conflicts, [], conflicts == []), requests);
    CompareCounts(p);
  }

  /** With several conflicts on one key, resolving each key once never makes the plan ready. */
  lemma RepeatedConflictsBlockReadiness(conflicts: seq<Conflict>, requests: seq<Resolution>)
    requires !DistinctConflicts(conflicts)
    ensures var p := ResolveAll(Progress(conflicts, [], conflicts == []), requests);
            NoKeyTwice(p.resolutions) ==> !p.ready
  {
    RunIsCounted(conflicts, requests);
    var p := ResolveAll(Progress(conflicts, [], conflicts == []), requests);
    CompareCounts(p);
  }

  // ------------------------------------------------------------------ when counting is right

  /** How many of the entries of a list only repeat others. */
  function Repetitions<T(==)>(s: seq<T>): int { |s| - |Elements(s)| }

  /** The requests name each key once, and none that has been resolved. */
  ghost predicate NewKeys(p: Progress, requests: seq<Resolution>) {
    && Distinct(ResolutionKeys(requests))
    && forall k :: k in ResolutionKeys(requests) ==> k !in ResolutionKeys(p.resolutions)
  }

  /** From here on, resolving only new keys, the plan is ready exactly when everything is resolved. */
  ghost predicate ReadyMeansResolved(p: Progress) {
    forall requests :: NewKeys(p, requests) ==>
      var q := ResolveAll(p, requests);
      q.ready <==> AllResolved(q)
  }

  /** One request on a new key is recorded, or changes nothing. */
  lemma ResolveNewKey(p: Progress, r: Resolution)
    requires Counted(p) && ResolutionKey(r) !in ResolutionKeys(p.resolutions)
    ensures var q := Resolve(p, r);
            && Counted(q) && q.conflicts == p.conflicts && p.resolutions <= q.resolutions
            && Repetitions(ResolutionKeys(q.resolutions)) == Repetitions(ResolutionKeys(p.resolutions))
            && (forall k :: k in ResolutionKeys(q.resolutions) ==>
                  k in ResolutionKeys(p.resolutions) + [ResolutionKey(r)])
            && (Recorded(p, r).Some? ==> ResolutionKey(r) in ResolutionKeys(q.resolutions))
  {
    var q := Resolve(p, r);
    var before, after := ResolutionKeys(p.resolutions), ResolutionKeys(q.resolutions);
    if q != p {
      assert InConflict(p.conflicts, ResolutionKey(r)) by {
        var i := FirstConflict(p.conflicts, ResolutionKey(r));
        assert KeyOf(p.conflicts[i].hardware) == ResolutionKey(r);
      }
      assert after == before + [ResolutionKey(r)];
      assert Elements(after) == Elements(before) + {ResolutionKey(r)};
      assert ResolutionKey(r) !in Elements(before);
    }
  }

  lemma LastIsNew(p: Progress, requests: seq<Resolution>)
    requires NewKeys(p, requests) && requests != []
    ensures var n := |requests| - 1;
            var front, last := requests[..n], ResolutionKey(requests[n]);
            && NewKeys(p, front) && last !in ResolutionKeys(p.resolutions) && last !in ResolutionKeys(front)
            && ResolutionKeys(requests) == ResolutionKeys(front) + [last]
  {
    var n := |requests| - 1;
    var keys, front := ResolutionKeys(requests), ResolutionKeys(requests[..n]);
    assert forall i :: 0 <= i < n ==> front[i] == keys[i];
    assert keys[n] in keys;
    forall i | 0 <= i < n
      ensures front[i] !in ResolutionKeys(p.resolutions)
    {
      assert keys[i] in keys;
    }
  }

  lemma {:induction false} ResolveNewKeys(p: Progress, requests: seq<Resolution>)
    requires Counted(p) && NewKeys(p, requests)
    ensures var q := ResolveAll(p, requests);
            && Counted(q) && q.conflicts == p.conflicts && p.resolutions <= q.resolutions
            && Repetitions(ResolutionKeys(q.resolutions)) == Repetitions(ResolutionKeys(p.resolutions))
            && forall k :: k in ResolutionKeys(q.resolutions) ==>
                 k in ResolutionKeys(p.resolutions) || k in ResolutionKeys(requests)
  {
    if requests != [] {
      var n := |requests| - 1;
      LastIsNew(p, requests);
      ResolveNewKeys(p, requests[..n]);
      ResolveNewKey(ResolveAll(p, requests[..n]), requests[n]);
    }
  }

  /** A value for every key in conflict that has none yet, each key once. */
  function Missing(conflicts: seq<Conflict>, resolved: seq<Key>): seq<Resolution> {
    if conflicts == [] then []
    else
      var earlier, k := Missing(conflicts[..|conflicts| - 1], resolved), KeyOf(conflicts[|conflicts| - 1].hardware);
      if k in resolved || k in ResolutionKeys(earlier) then earlier
      else earlier + [Resolution(k.entityId, k.field, MergeValue, "merged")]
  }

  lemma {:induction false} MissingKeys(conflicts: seq<Conflict>, resolved: seq<Key>)
    ensures var missing := Missing(conflicts, resolved);
            && Distinct(ResolutionKeys(missing))
            && (forall k :: k in ResolutionKeys(missing) ==> k !in resolved)
            && (forall k :: k in ConflictKeys(conflicts) ==> k in resolved || k in ResolutionKeys(missing))
            && forall i :: 0 <= i < |missing| ==>
                 missing[i].choice == MergeValue && missing[i].resolvedValue == "merged"
                 && ResolutionKey(missing[i]) in ConflictKeys(conflicts)
  {
    if conflicts != [] {
      var n := |conflicts| - 1;
      var k := KeyOf(conflicts[n].hardware);
      var earlier, missing := Missing(conflicts[..n], resolved), Missing(conflicts, resolved);
      MissingKeys(conflicts[..n], resolved);
      assert ConflictKeys(conflicts) == ConflictKeys(conflicts[..n]) + [k];
      if missing != earlier {
        assert ResolutionKeys(missing) == ResolutionKeys(earlier) + [k];
      }
    }
  }

  lemma MissingIsRecorded(p: Progress, r: Resolution)
    requires r.choice == MergeValue && r.resolvedValue != "" && ResolutionKey(r) in ConflictKeys(p.conflicts)
    ensures Recorded(p, r).Some?
  {
    var keys := ConflictKeys(p.conflicts);
    var i :| 0 <= i < |keys| && keys[i] == ResolutionKey(r);
    assert KeyOf(p.conflicts[i].hardware) == ResolutionKey(r);
  }

  lemma {:induction false} RequestsAreRecorded(p: Progress, requests: seq<Resolution>)
    requires Counted(p) && NewKeys(p, requests)
    requires forall i :: 0 <= i < |requests| ==>
               requests[i].choice == MergeValue && requests[i].resolvedValue == "merged"
               && ResolutionKey(requests[i]) in ConflictKeys(p.conflicts)
    ensures forall k :: k in ResolutionKeys(requests) ==> k in ResolutionKeys(ResolveAll(p, requests).resolutions)
  {
    if requests != [] {
      var n := |requests| - 1;
      LastIsNew(p, requests);
      RequestsAreRecorded(p, requests[..n]);
      ResolveNewKeys(p, requests[..n]);
      var q := ResolveAll(p, requests[..n]);
      MissingIsRecorded(q, requests[n]);
      ResolveNewKey(q, requests[n]);
      PrefixKeys(q.resolutions, Resolve(q, requests[n]).resolutions);
    }
  }

  lemma PrefixKeys(a: seq<Resolution>, b: seq<Resolution>)
    requires a <= b
    ensures forall k :: k in ResolutionKeys(a) ==> k in ResolutionKeys(b)
  {
    forall k | k in ResolutionKeys(a)
      ensures k in ResolutionKeys(b)
    {
      var i :| 0 <= i < |a| && ResolutionKeys(a)[i] == k;
      assert ResolutionKeys(b)[i] == k;
    }
  }

  /** Everything can be resolved from here, with new keys only. */
  lemma ResolveMissing(p: Progress) returns (requests: seq<Resolution>)
    requires Counted(p)
    ensures NewKeys(p, requests) && AllResolved(ResolveAll(p, requests))
  {
    var resolved := ResolutionKeys(p.resolutions);
    requests := Missing(p.conflicts, resolved);
    MissingKeys(p.conflicts, resolved);
    RequestsAreRecorded(p, requests);
    ResolveNewKeys(p, requests);
    PrefixKeys(p.resolutions, ResolveAll(p, requests).resolutions);
  }

  lemma ReadyByRepetitions(p: Progress)
    requires Counted(p)
    ensures Repetitions(ResolutionKeys(p.resolutions)) == Repetitions(ConflictKeys(p.conflicts))
            ==> (p.ready <==> AllResolved(p))
    ensures AllResolved(p) ==>
              (p.ready <==> Repetitions(ResolutionKeys(p.resolutions)) == Repetitions(ConflictKeys(p.conflicts)))
  {
    CompareCounts(p);
  }

  /**
   * Counting is right from some point on, whatever is resolved after it, exactly when the resolutions up to there
   * repeat as many keys as the conflicts do: none, if there is one conflict per key.
   */
  lemma CountingIsRightExactly(conflicts: seq<Conflict>, requests: seq<Resolution>)
    ensures var p := ResolveAll(Progress(conflicts, [], conflicts == []), requests);
            && (ReadyMeansResolved(p)
                <==> Repetitions(ResolutionKeys(p.resolutions)) == Repetitions(ConflictKeys(conflicts)))
            && (DistinctConflicts(conflicts) ==> (ReadyMeansResolved(p) <==> NoKeyTwice(p.resolutions)))
  {
    var p := ResolveAll(Progress(conflicts, [], conflicts == []), requests);
    RunIsCounted(conflicts, requests);
    if Repetitions(ResolutionKeys(p.resolutions)) == Repetitions(ConflictKeys(conflicts)) {
      forall more | NewKeys(p, more)
        ensures var q := ResolveAll(p, more); q.ready <==> AllResolved(q)
      {
        ResolveNewKeys(p, more);
        ReadyByRepetitions(ResolveAll(p, more));
      }
    } else {
      var more := ResolveMissing(p);
      ResolveNewKeys(p, more);
      ReadyByRepetitions(ResolveAll(p, more));
    }
    CountElements(ConflictKeys(conflicts));
    CountElements(ResolutionKeys(p.resolutions));
  }

  function Copies(r: Resolution, n: nat): seq<Resolution> { if n == 0 then [] else Copies(r, n - 1) + [r] }

  lemma ResolveOneMore(p: Progress, requests: seq<Resolution>, r: Resolution)
    ensures ResolveAll(p, requests + [r]) == Resolve(ResolveAll(p, requests), r)
  {
    assert (requests + [r])[..|requests|] == requests;
  }

  /** Whether a request is recorded depends on the conflicts alone. */
  lemma RecordedOnce(p: Progress, q: Progress, r: Resolution)
    requires p.conflicts == q.conflicts && Recorded(q, r).Some?
    ensures Recorded(p, r).Some? && ResolutionKey(Recorded(p, r).value) == ResolutionKey(r)
  {
  }

  lemma {:induction false} CopiesAreCounted(conflicts: seq<Conflict>, r: Resolution, n: nat)
    requires conflicts != [] && Recorded(Progress(conflicts, [], false), r).Some?
    ensures var p := ResolveAll(Progress(conflicts, [], conflicts == []), Copies(r, n));
            && p.conflicts == conflicts && |p.resolutions| == n && p.ready == (n == |conflicts|)
            && forall i :: 0 <= i < n ==> ResolutionKey(p.resolutions[i]) == ResolutionKey(r)
  {
    if n > 0 {
      var start := Progress(conflicts, [], conflicts == []);
      CopiesAreCounted(conflicts, r, n - 1);
      ResolveOneMore(start, Copies(r, n - 1), r);
      RecordedOnce(ResolveAll(start, Copies(r, n - 1)), Progress(conflicts, [], false), r);
    }
  }

  /** Resolving one key as often as there are conflicts makes the plan ready with every other key still open. */
  lemma {:induction false} RepeatsMakeReadyTooEarly(conflicts: seq<Conflict>, r: Resolution, open: Key)
    requires InConflict(conflicts, open) && open != ResolutionKey(r)
    requires Recorded(Progress(conflicts, [], false), r).Some?
    ensures var p := ResolveAll(Progress(conflicts, [], conflicts == []), Copies(r, |conflicts|));
            p.ready && !AllResolved(p) && open !in ResolutionKeys(p.resolutions)
  {
    CopiesAreCounted(conflicts, r, |conflicts|);
    var p := ResolveAll(Progress(conflicts, [], conflicts == []), Copies(r, |conflicts|));
    var i :| 0 <= i < |conflicts| && KeyOf(conflicts[i].hardware) == open;
    assert ConflictKeys(p.conflicts)[i] == open;
    assert open !in ResolutionKeys(p.resolutions);
  }

  // ------------------------------------------------------------------ when conflicts are distinct

  lemma {:induction false} ConflictsOfOnce(h: Change, daw: seq<Change>)
    requires OncePerKey(daw)
    ensures |ConflictsOf(h, daw)| <= 1
    ensures forall i :: 0 <= i < |ConflictsOf(h, daw)| ==> ConflictsOf(h, daw)[i].hardware == h
    ensures ConflictsOf(h, daw) != [] ==> exists j :: 0 <= j < |daw| && Clash(h, daw[j])
  {
    if daw != [] {
      ConflictsOfOnce(h, daw[..|daw| - 1]);
      assert forall j :: 0 <= j < |daw| - 1 ==> daw[..|daw| - 1][j] == daw[j];
    }
  }

  /** Branches that change each key at most once have at most one conflict per key. */
  lemma {:induction false} OncePerKeyGivesDistinctConflicts(hardware: seq<Change>, daw: seq<Change>)
    requires OncePerKey(hardware) && OncePerKey(daw)
    ensures DistinctConflicts(Conflicts(hardware, daw))
  {
    if hardware != [] {
      var n := |hardware| - 1;
      OncePerKeyGivesDistinctConflicts(hardware[..n], daw);
      ConflictsOfOnce(hardware[n], daw);
      var front := Conflicts(hardware[..n], daw);
      forall i | 0 <= i < |front|
        ensures KeyOf(front[i].hardware) != KeyOf(hardware[n])
      {
        ConflictsAreDisputes(hardware[..n], daw, KeyOf(front[i].hardware));
        assert InConflict(front, KeyOf(front[i].hardware));
        var a, b :| 0 <= a < n && 0 <= b < |daw| && KeyOf(hardware[..n][a]) == KeyOf(front[i].hardware)
                    && Clash(hardware[..n][a], daw[b]);
        assert KeyOf(hardware[a]) != KeyOf(hardware[n]);
      }
      var keys, last := ConflictKeys(front), ConflictKeys(ConflictsOf(hardware[n], daw));
      assert Distinct(keys) && |last| <= 1;
      assert last != [] ==> last[0] == KeyOf(hardware[n]);
      assert ConflictKeys(Conflicts(hardware, daw)) == keys + last;
    }
  }
}
