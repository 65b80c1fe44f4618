/** When a push or a pop is refused, under every interleaving: exactly on the full or empty queue it looked at. */
module SpscRefusals {
  import opened SpscInterleaving
  import opened WordArithmetic

  /** The counters a thread has loaded are its own current ones, and they tell the occupancy. */
  lemma LoadedCounters<T>(m: nat, c: nat, storage: seq<T>, steps: seq<Step<T>>)
    requires 1 < c == |storage| && c < m && m % c == 0
    ensures var s := Run(m, c, Init(storage), steps);
            && (s.producer.OwnLoaded? ==> s.producer.write == s.write)
            && (s.consumer.ReadLoaded? ==> s.consumer.read == s.read)
            && |s.popped| <= |s.pushed| <= |s.popped| + c
            && Wrap(m, s.write - s.read) == |s.pushed| - |s.popped|
            && (s.write == s.read <==> |s.pushed| == |s.popped|)
  {
    InitInv(c, storage);
    RunKeepsInv(c, Init(storage), steps);
    RunRefines(m, c, Init(storage), steps);
    assert Project(m, Init(storage)) == Init(storage);
    var u := Run(0, c, Init(storage), steps);
    WrappedDistance(m, u.write, u.read);
    WrappedEquality(m, u.write, u.read);
  }

  lemma {:induction false} ProducerWaits<T>(m: nat, c: nat, s: State<T>, steps: seq<Step<T>>)
    requires 0 < c == |s.storage| && s.producer.PeerLoaded?
    requires forall i :: 0 <= i < |steps| ==> !steps[i].FillSlot?
    ensures Run(m, c, s, steps).producer == s.producer
    decreases |steps|
  {
    if steps != [] {
      ProducerWaits(m, c, Next(m, c, s, steps[0]), steps[1..]);
    }
  }

  lemma {:induction false} ConsumerWaits<T>(m: nat, c: nat, s: State<T>, steps: seq<Step<T>>)
    requires 0 < c == |s.storage| && s.consumer.WriteLoaded?
    requires forall i :: 0 <= i < |steps| ==> !steps[i].TakeSlot?
    ensures Run(m, c, s, steps).consumer == s.consumer
    decreases |steps|
  {
    if steps != [] {
      ConsumerWaits(m, c, Next(m, c, s, steps[0]), steps[1..]);
    }
  }

  /**
   * A push loads the read counter, then, whatever happens in between, makes its decision: it is refused exactly if
   * the queue was full when the counter was loaded.
   */
  lemma PushRefusedExactlyWhenFull<T>(m: nat, c: nat, storage: seq<T>, before: seq<Step<T>>, between: seq<Step<T>>)
    requires 1 < c == |storage| && c < m && m % c == 0
    requires Run(m, c, Init(storage), before).producer.OwnLoaded?
    requires forall i :: 0 <= i < |between| ==> !between[i].FillSlot?
    ensures var s := Run(m, c, Init(storage), before);
            var t := Next(m, c, Run(m, c, Next(m, c, s, LoadRead), between), FillSlot);
            && (t.producer.ProducerReady? <==> |s.pushed| - |s.popped| == c)
            && (t.producer.SlotFilled? <==> |s.pushed| - |s.popped| < c)
  {
    LoadedCounters(m, c, storage, before);
    ProducerWaits(m, c, Next(m, c, Run(m, c, Init(storage), before), LoadRead), between);
  }

  /** A pop is refused exactly if the queue was empty when it loaded the write counter. */
  lemma PopRefusedExactlyWhenEmpty<T>(m: nat, c: nat, storage: seq<T>, before: seq<Step<T>>, between: seq<Step<T>>)
    requires 1 < c == |storage| && c < m && m % c == 0
    requires Run(m, c, Init(storage), before).consumer.ReadLoaded?
    requires forall i :: 0 <= i < |between| ==> !between[i].TakeSlot?
    ensures var s := Run(m, c, Init(storage), before);
            var t := Next(m, c, Run(m, c, Next(m, c, s, LoadWrite), between), TakeSlot);
            && (t.consumer.ConsumerReady? <==> |s.pushed| == |s.popped|)
            && (t.consumer.SlotTaken? <==> |s.pushed| > |s.popped|)
  {
    LoadedCounters(m, c, storage, before);
    ConsumerWaits(m, c, Next(m, c, Run(m, c, Init(storage), before), LoadWrite), between);
  }
}
