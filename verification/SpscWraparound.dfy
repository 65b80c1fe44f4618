/**
 * When exactly the queue survives the wrap of its counters: for a capacity below the modulus, the queue
 * is safe in every run if and only if the capacity divides the modulus. A capacity that does not divide it
 * has a run in which a published value is overwritten before it is read.
 */
module SpscWraparound {
  import opened SpscInterleaving
  import opened WordArithmetic

  /** One uninterrupted call of try_push, and one of try_pop. */
  function PushCall<T>(v: T): seq<Step<T>> { [Offer(v), LoadRead, FillSlot, PublishWrite] }

  function PopCall<T>(): seq<Step<T>> { [Request, LoadWrite, TakeSlot, PublishRead] }

  lemma RunFour<T>(m: nat, c: nat, s: State<T>, a: Step<T>, b: Step<T>, d: Step<T>, e: Step<T>)
    requires 0 < c == |s.storage|
    ensures Run(m, c, s, [a, b, d, e]) == Next(m, c, Next(m, c, Next(m, c, Next(m, c, s, a), b), d), e)
  {
    var s1 := Next(m, c, s, a);
    var s2 := Next(m, c, s1, b);
    var s3 := Next(m, c, s2, d);
    assert [a, b, d, e][1..] == [b, d, e];
    assert [b, d, e][1..] == [d, e];
    assert [d, e][1..] == [e];
    assert [e][1..] == [];
    assert Run(m, c, s3, [e]) == Next(m, c, s3, e);
    assert Run(m, c, s2, [d, e]) == Run(m, c, s3, [e]);
    assert Run(m, c, s1, [b, d, e]) == Run(m, c, s2, [d, e]);
  }

  lemma PushEffect<T>(m: nat, c: nat, s: State<T>, v: T)
    requires 0 < c == |s.storage| && s.producer.ProducerReady?
    requires Wrap(m, s.write - s.read) < c
    ensures Run(m, c, s, PushCall(v))
         == s.(storage := s.storage[s.write % c := v], write := Wrap(m, s.write + 1), pushed := s.pushed + [v])
  {
    RunFour(m, c, s, Offer(v), LoadRead, FillSlot, PublishWrite);
  }

  lemma PopEffect<T>(m: nat, c: nat, s: State<T>)
    requires 0 < c == |s.storage| && s.consumer.ConsumerReady?
    requires s.read != s.write
    ensures Run(m, c, s, PopCall())
         == s.(read := Wrap(m, s.read + 1), popped := s.popped + [s.storage[s.read % c]])
  {
    RunFour(m, c, s, Request, LoadWrite, TakeSlot, PublishRead);
  }

  ghost predicate Idle<T>(s: State<T>) {
    s.producer.ProducerReady? && s.consumer.ConsumerReady?
  }

  /** Push then pop on an empty idle queue below the wrap: both counters advance, both logs grow alike. */
  lemma PushPopEffect(m: nat, c: nat, s: State<bool>, n: nat)
    requires 1 < c == |s.storage| && n + 1 < m
    requires Idle(s) && s.write == n && s.read == n && s.pushed == s.popped && |s.pushed| == n
    ensures var t := Run(m, c, s, PushCall(false) + PopCall());
            Idle(t) && t.write == n + 1 && t.read == n + 1 && t.pushed == t.popped && |t.pushed| == n + 1
  {
    SmallMod(0, m);
    SmallMod(n + 1, m);
    PushEffect(m, c, s, false);
    var u := Run(m, c, s, PushCall(false));
    PopEffect(m, c, u);
    RunConcat(m, c, s, PushCall(false), PopCall());
  }

  /** n times push-then-pop from the initial state, while the counters stay below the modulus. */
  lemma {:induction false} Spin(m: nat, c: nat, storage: seq<bool>, n: nat) returns (steps: seq<Step<bool>>)
    requires 1 < c == |storage| && n < m
    ensures var s := Run(m, c, Init(storage), steps);
            Idle(s) && s.write == n && s.read == n && s.pushed == s.popped && |s.pushed| == n
  {
    if n == 0 {
      steps := [];
    } else {
      var before := Spin(m, c, storage, n - 1);
      steps := before + (PushCall(false) + PopCall());
      RunConcat(m, c, Init(storage), before, PushCall(false) + PopCall());
      PushPopEffect(m, c, Run(m, c, Init(storage), before), n - 1);
    }
  }

  /** `true` pushed at counter `start`, then j - 1 times `false` behind it: all of it still unread. */
  ghost predicate Filling(m: nat, start: nat, j: nat, s: State<bool>) {
    && Idle(s) && s.read == start && s.write == Wrap(m, start + j)
    && |s.popped| == start && |s.pushed| == start + j && 0 < j && s.pushed[start]
  }

  lemma FillOne(m: nat, c: nat, s: State<bool>, start: nat, j: nat)
    requires 1 < c == |s.storage| && j < c < m && start + j < m
    requires Filling(m, start, j, s)
    ensures Filling(m, start, j + 1, Run(m, c, s, PushCall(false)))
  {
    SmallMod(start + j, m);
    SmallMod(j, m);
    PushEffect(m, c, s, false);
  }

  lemma {:induction false} Fill(m: nat, c: nat, s: State<bool>, start: nat, k: nat) returns (steps: seq<Step<bool>>)
    requires 1 < c == |s.storage| && c < m && Idle(s)
    requires s.write == start && s.read == start && |s.pushed| == start && |s.popped| == start
    requires 0 < k < c && start + k <= m
    ensures Filling(m, start, k, Run(m, c, s, steps))
  {
    if k == 1 {
      SmallMod(0, m);
      PushEffect(m, c, s, true);
      steps := PushCall(true);
    } else {
      var before := Fill(m, c, s, start, k - 1);
      FillOne(m, c, Run(m, c, s, before), start, k - 1);
      RunConcat(m, c, s, before, PushCall(false));
      steps := before + PushCall(false);
    }
  }

  /** The write counter has wrapped to 0 while slot 0 is still occupied, and the full test does not notice. */
  lemma OverwriteThenPop(m: nat, c: nat, s: State<bool>, start: nat, k: nat)
    requires 1 < c == |s.storage| && c < m && 0 < k < c && start + k == m
    requires start % c == 0 && 0 < start
    requires Filling(m, start, k, s)
    ensures var t := Run(m, c, s, PushCall(false) + PopCall()); !(t.popped <= t.pushed)
  {
    assert s.write == 0 by { ModIsUnique(m, 1, 0, m); }
    assert Wrap(m, s.write - s.read) == k by { ModIsUnique(k - m, -1, k, m); }
    SmallMod(0, c);
    SmallMod(1, c);
    SmallMod(1, m);
    PushEffect(m, c, s, false);
    var u := Run(m, c, s, PushCall(false));
    assert u.write == 1 && u.read == start != 1;
    PopEffect(m, c, u);
    RunConcat(m, c, s, PushCall(false), PopCall());
    var t := Run(m, c, u, PopCall());
    assert t.popped[start] == false && t.pushed[start] == true;
  }

  /** A capacity that does not divide the modulus breaks the queue: some run pops a value out of order. */
  lemma WrapBreaksFifo(m: nat, c: nat, storage: seq<bool>) returns (steps: seq<Step<bool>>)
    requires 1 < c == |storage| && c < m && m % c != 0
    ensures !(Run(m, c, Init(storage), steps).popped <= Run(m, c, Init(storage), steps).pushed)
  {
    var k := m % c;
    var start := m - k;
    assert start == (m / c) * c + 0;
    ModIsUnique(start, m / c, 0, c);
    var spin := Spin(m, c, storage, start);
    var s := Run(m, c, Init(storage), spin);
    var fill := Fill(m, c, s, start, k);
    OverwriteThenPop(m, c, Run(m, c, s, fill), start, k);
    RunConcat(m, c, Init(storage), spin, fill + (PushCall(false) + PopCall()));
    RunConcat(m, c, s, fill, PushCall(false) + PopCall());
    steps := spin + (fill + (PushCall(false) + PopCall()));
  }

  ghost predicate AlwaysSafe(m: nat, c: nat)
    requires 1 < c
  {
    forall storage: seq<bool>, steps: seq<Step<bool>> :: |storage| == c ==> Safe(m, c, Run(m, c, Init(storage), steps))
  }

  /** The exact condition on the capacity. */
  lemma SafeIffCapacityDividesModulus(m: nat, c: nat)
    requires 1 < c < m
    ensures AlwaysSafe(m, c) <==> m % c == 0
  {
    if m % c == 0 {
      forall storage: seq<bool>, steps: seq<Step<bool>> | |storage| == c
        ensures Safe(m, c, Run(m, c, Init(storage), steps))
      {
        SafeUnderEveryInterleaving(m, c, storage, steps);
      }
    } else {
      var storage := seq(c, _ => false);
      var steps := WrapBreaksFifo(m, c, storage);
      assert !Safe(m, c, Run(m, c, Init(storage), steps));
    }
  }

  // ------------------------------------------------------------------ size_approx

  /** size_approx from its two loads: the write counter first, the read counter later. */
  function SizeApprox(m: nat, c: nat, seenWrite: int, seenRead: int): (size: int) {
    var distance := Wrap(m, seenWrite - seenRead);
    if distance > c then c else distance
  }

  lemma {:induction false} CountersOnlyGrow<T>(c: nat, s: State<T>, steps: seq<Step<T>>)
    requires Inv(c, s)
    ensures Run(0, c, s, steps).write >= s.write && Run(0, c, s, steps).read >= s.read
    decreases |steps|
  {
    if steps != [] {
      StepKeepsInv(c, s, steps[0]);
      CountersOnlyGrow(c, Next(0, c, s, steps[0]), steps[1..]);
    }
  }

  lemma CountersBetweenLoads<T>(m: nat, c: nat, storage: seq<T>, before: seq<Step<T>>, between: seq<Step<T>>)
    returns (s: State<T>, t: State<T>)
    requires 1 < c == |storage| && c < m && m % c == 0
    ensures Inv(c, s) && Inv(c, t) && s.write <= t.write
    ensures Run(m, c, Init(storage), before) == Project(m, s)
    ensures Run(m, c, Project(m, s), between) == Project(m, t)
  {
    InitInv(c, storage);
    RunKeepsInv(c, Init(storage), before);
    RunRefines(m, c, Init(storage), before);
    assert Project(m, Init(storage)) == Init(storage);
    s := Run(0, c, Init(storage), before);
    RunKeepsInv(c, s, between);
    RunRefines(m, c, s, between);
    CountersOnlyGrow(c, s, between);
    t := Run(0, c, s, between);
  }

  lemma SizeByLead(m: nat, c: nat, write: int, read: int)
    requires 1 < c < m && write - read <= c
    ensures var size, lead := SizeApprox(m, c, write % m, read % m), read - write;
            && (lead <= 0 ==> size == -lead)
            && (0 < lead <= m - c ==> size == c)
            && (m - c < lead < m ==> size == m - lead)
            && (lead >= m ==> size == SizeApprox(m, c, 0, lead % m))
  {
    WrappedDifference(m, write, read);
    assert write - read == -(read - write);
    WrappedLead(m, read - write);
  }

  /**
   * A third thread that loads the write counter, lets the queue run on, then loads the read counter. By how far the
   * consumer has passed, at the second load, what had been pushed at the first: not at all, and the answer is what
   * was pushed before the first load and not popped before the second; by at most modulus - capacity, and it is the
   * full capacity; by more, and it shrinks to one and starts again a modulus later. Up to modulus - capacity it is a
   * lower bound on the occupancy at the second load exactly if the consumer has not passed, or the queue is full.
   */
  lemma SizeApproxBetweenLoads<T>(m: nat, c: nat, storage: seq<T>, before: seq<Step<T>>, between: seq<Step<T>>)
    requires 1 < c == |storage| && c < m && m % c == 0
    ensures var s := Run(m, c, Init(storage), before);
            var t := Run(m, c, s, between);
            var size, lead := SizeApprox(m, c, s.write, t.read), |t.popped| - |s.pushed|;
            var occupancy := |t.pushed| - |t.popped|;
            && 0 <= size <= c
            && (lead <= 0 ==> size == -lead)
            && (0 < lead <= m - c ==> size == c)
            && (m - c < lead < m ==> size == m - lead)
            && (lead >= m ==> size == SizeApprox(m, c, 0, lead % m))
            && (lead <= m - c ==> (size <= occupancy <==> lead <= 0 || occupancy == c))
  {
    var s, t := CountersBetweenLoads(m, c, storage, before, between);
    SizeByLead(m, c, s.write, t.read);
    SizeInRange(m, c, s.write % m, t.read % m);
  }

  lemma SizeInRange(m: nat, c: nat, seenWrite: int, seenRead: int)
    requires 0 < m
    ensures 0 <= SizeApprox(m, c, seenWrite, seenRead) <= c
  {
  }

  /** A push and a pop between the two loads: an empty queue is reported as full. */
  lemma EmptyReportedAsFull<T>(m: nat, c: nat, storage: seq<T>, v: T)
    requires 1 < c == |storage| && c < m && m % c == 0
    ensures var s := Init(storage);
            var t := Run(m, c, s, PushCall(v) + PopCall());
            t.pushed == t.popped && SizeApprox(m, c, s.write, t.read) == c
  {
    var s := Init(storage);
    SmallMod(0, m);
    SmallMod(1, m);
    PushEffect(m, c, s, v);
    PopEffect(m, c, Run(m, c, s, PushCall(v)));
    RunConcat(m, c, s, PushCall(v), PopCall());
    ModIsUnique(-1, -1, m - 1, m);
  }
}
