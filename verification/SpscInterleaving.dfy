/**
 * The lock-free single-producer/single-consumer queue as an interleaved step system.
 *
 * Each thread runs through the atomic actions of one call: load its own counter, load the other
 * thread's counter (a snapshot that may be stale by the time it is used), touch the slot, publish.
 * The machine is written once for any modulus `m`; m == 0 gives unbounded counters, and
 * m == WORD gives the 64-bit counters of the source.
 */
module SpscInterleaving {
  import opened WordArithmetic

  datatype Producer<T> =
    | ProducerReady
    | OwnLoaded(value: T, write: int)
    | PeerLoaded(value: T, write: int, seenRead: int)
    | SlotFilled(value: T, write: int)

  datatype Consumer<T> =
    | ConsumerReady
    | ReadLoaded(read: int)
    | WriteLoaded(read: int, seenWrite: int)
    | SlotTaken(read: int, value: T)

  /** `pushed` and `popped` are history: every published value, and every value handed to the consumer. */
  datatype State<T> = State(
    storage: seq<T>,
    write: int,
    read: int,
    producer: Producer<T>,
    consumer: Consumer<T>,
    pushed: seq<T>,
    popped: seq<T>)

  datatype Step<T> =
    | Offer(value: T) | LoadRead | FillSlot | PublishWrite
    | Request | LoadWrite | TakeSlot | PublishRead

  function Init<T>(storage: seq<T>): State<T> {
    State(storage, 0, 0, ProducerReady, ConsumerReady, [], [])
  }

  /** One atomic action; an action the thread is not ready for leaves the state alone. */
  function Next<T>(m: nat, c: nat, s: State<T>, step: Step<T>): (t: State<T>)
    requires 0 < c == |s.storage|
    ensures |t.storage| == c
  {
    match step
    case Offer(v) =>
      if s.producer.ProducerReady? then s.(producer := OwnLoaded(v, s.write)) else s
    case LoadRead =>
      if s.producer.OwnLoaded? then
        s.(producer := PeerLoaded(s.producer.value, s.producer.write, s.read))
      else s
    case FillSlot =>
      if !s.producer.PeerLoaded? then s
      else if Wrap(m, s.producer.write - s.producer.seenRead) >= c then s.(producer := ProducerReady)
      else s.(storage := s.storage[s.producer.write % c := s.producer.value],
              producer := SlotFilled(s.producer.value, s.producer.write))
    case PublishWrite =>
      if s.producer.SlotFilled? then
        s.(write := Wrap(m, s.producer.write + 1), pushed := s.pushed + [s.producer.value], producer := ProducerReady)
      else s
    case Request =>
      if s.consumer.ConsumerReady? then s.(consumer := ReadLoaded(s.read)) else s
    case LoadWrite =>
      if s.consumer.ReadLoaded? then s.(consumer := WriteLoaded(s.consumer.read, s.write)) else s
    case TakeSlot =>
      if !s.consumer.WriteLoaded? then s
      else if s.consumer.read == s.consumer.seenWrite then s.(consumer := ConsumerReady)
      else s.(consumer := SlotTaken(s.consumer.read, s.storage[s.consumer.read % c]))
    case PublishRead =>
      if s.consumer.SlotTaken? then
        s.(read := Wrap(m, s.consumer.read + 1), popped := s.popped + [s.consumer.value], consumer := ConsumerReady)
      else s
  }

  function Run<T>(m: nat, c: nat, s: State<T>, steps: seq<Step<T>>): (t: State<T>)
    requires 0 < c == |s.storage|
    ensures |t.storage| == c
    decreases |steps|
  {
    if steps == [] then s else Run(m, c, Next(m, c, s, steps[0]), steps[1..])
  }

  lemma {:induction false} RunConcat<T>(m: nat, c: nat, s: State<T>, a: seq<Step<T>>, b: seq<Step<T>>)
    requires 0 < c == |s.storage|
    ensures Run(m, c, s, a + b) == Run(m, c, Run(m, c, s, a), b)
    decreases |a|
  {
    if a == [] {
      assert a + b == b;
    } else {
      assert (a + b)[0] == a[0] && (a + b)[1..] == a[1..] + b;
      RunConcat(m, c, Next(m, c, s, a[0]), a[1..], b);
    }
  }

  // ------------------------------------------------------------------ unbounded counters

  /** What every interleaving keeps, stated with unbounded counters. */
  ghost predicate Inv<T>(c: nat, s: State<T>) {
    && 1 < c == |s.storage|
    && 0 <= s.read <= s.write <= s.read + c
    && s.write == |s.pushed|
    && s.read == |s.popped|
    && s.popped == s.pushed[..s.read]
    && (forall i :: s.read <= i < s.write ==> s.storage[i % c] == s.pushed[i])
    && ProducerInv(c, s)
    && ConsumerInv(s)
  }

  ghost predicate ProducerInv<T>(c: nat, s: State<T>)
    requires 0 < c == |s.storage|
  {
    match s.producer
    case ProducerReady => true
    case OwnLoaded(_, w) => w == s.write
    case PeerLoaded(_, w, r) => w == s.write && 0 <= r <= s.read && w <= r + c
    case SlotFilled(v, w) => w == s.write && 0 <= w < s.read + c && s.storage[w % c] == v
  }

  ghost predicate ConsumerInv<T>(s: State<T>)
    requires s.write <= |s.pushed|
  {
    match s.consumer
    case ConsumerReady => true
    case ReadLoaded(r) => r == s.read
    case WriteLoaded(r, w) => r == s.read && r <= w <= s.write
    case SlotTaken(r, v) => r == s.read && 0 <= r < s.write && v == s.pushed[r]
  }

  lemma InitInv<T>(c: nat, storage: seq<T>)
    requires 1 < c == |storage|
    ensures Inv(c, Init(storage))
  {
  }

  /** The slot about to be filled holds nothing that is still to be read. */
  lemma FillKeepsInv<T>(c: nat, s: State<T>)
    requires Inv(c, s)
    ensures Inv(c, Next(0, c, s, FillSlot))
  {
    if s.producer.PeerLoaded? && s.producer.write - s.producer.seenRead < c {
      var w := s.producer.write;
      forall i | s.read <= i < s.write
        ensures i % c != w % c
      {
        DistinctSlots(c, i, w);
      }
    }
  }

  lemma PublishKeepsInv<T>(c: nat, s: State<T>)
    requires Inv(c, s)
    ensures Inv(c, Next(0, c, s, PublishWrite))
  {
    var t := Next(0, c, s, PublishWrite);
    if s.producer.SlotFilled? {
      assert forall i :: 0 <= i < s.write ==> t.pushed[i] == s.pushed[i];
    }
  }

  lemma ConsumerKeepsInv<T>(c: nat, s: State<T>, step: Step<T>)
    requires Inv(c, s) && (step.Request? || step.LoadWrite? || step.TakeSlot? || step.PublishRead?)
    ensures Inv(c, Next(0, c, s, step))
  {
  }

  lemma StepKeepsInv<T>(c: nat, s: State<T>, step: Step<T>)
    requires Inv(c, s)
    ensures Inv(c, Next(0, c, s, step))
  {
    match step
    case FillSlot => FillKeepsInv(c, s);
    case PublishWrite => PublishKeepsInv(c, s);
    case Offer(_) =>
    case LoadRead =>
    case _ => ConsumerKeepsInv(c, s, step);
  }

  lemma {:induction false} RunKeepsInv<T>(c: nat, s: State<T>, steps: seq<Step<T>>)
    requires Inv(c, s)
    ensures Inv(c, Run(0, c, s, steps))
    decreases |steps|
  {
    if steps != [] {
      StepKeepsInv(c, s, steps[0]);
      RunKeepsInv(c, Next(0, c, s, steps[0]), steps[1..]);
    }
  }

  // ------------------------------------------------------------------ wrapped counters

  function ProjectProducer<T>(m: nat, p: Producer<T>): Producer<T>
    requires 0 < m
  {
    match p
    case ProducerReady => ProducerReady
    case OwnLoaded(v, w) => OwnLoaded(v, w % m)
    case PeerLoaded(v, w, r) => PeerLoaded(v, w % m, r % m)
    case SlotFilled(v, w) => SlotFilled(v, w % m)
  }

  function ProjectConsumer<T>(m: nat, q: Consumer<T>): Consumer<T>
    requires 0 < m
  {
    match q
    case ConsumerReady => ConsumerReady
    case ReadLoaded(r) => ReadLoaded(r % m)
    case WriteLoaded(r, w) => WriteLoaded(r % m, w % m)
    case SlotTaken(r, v) => SlotTaken(r % m, v)
  }

  /** The 64-bit view of an unbounded state: every counter and every snapshot reduced modulo m. */
  function Project<T>(m: nat, s: State<T>): State<T>
    requires 0 < m
  {
    State(s.storage, s.write % m, s.read % m,
          ProjectProducer(m, s.producer), ProjectConsumer(m, s.consumer), s.pushed, s.popped)
  }

  lemma ProducerStepRefines<T>(m: nat, c: nat, s: State<T>, step: Step<T>)
    requires Inv(c, s) && c < m && m % c == 0
    requires step.Offer? || step.LoadRead? || step.FillSlot? || step.PublishWrite?
    ensures Next(m, c, Project(m, s), step) == Project(m, Next(0, c, s, step))
  {
    if step.FillSlot? && s.producer.PeerLoaded? {
      WrappedDistance(m, s.producer.write, s.producer.seenRead);
      WrappedSlot(m, c, s.producer.write);
    } else if step.PublishWrite? && s.producer.SlotFilled? {
      WrappedSuccessor(m, s.producer.write);
    }
  }

  lemma ConsumerStepRefines<T>(m: nat, c: nat, s: State<T>, step: Step<T>)
    requires Inv(c, s) && c < m && m % c == 0
    requires step.Request? || step.LoadWrite? || step.TakeSlot? || step.PublishRead?
    ensures Next(m, c, Project(m, s), step) == Project(m, Next(0, c, s, step))
  {
    if step.TakeSlot? && s.consumer.WriteLoaded? {
      WrappedEquality(m, s.consumer.seenWrite, s.consumer.read);
      WrappedSlot(m, c, s.consumer.read);
    } else if step.PublishRead? && s.consumer.SlotTaken? {
      WrappedSuccessor(m, s.consumer.read);
    }
  }

  /** One wrapped step is the projection of one unbounded step. */
  lemma StepRefines<T>(m: nat, c: nat, s: State<T>, step: Step<T>)
    requires Inv(c, s) && c < m && m % c == 0
    ensures Next(m, c, Project(m, s), step) == Project(m, Next(0, c, s, step))
  {
    if step.Offer? || step.LoadRead? || step.FillSlot? || step.PublishWrite? {
      ProducerStepRefines(m, c, s, step);
    } else {
      ConsumerStepRefines(m, c, s, step);
    }
  }

  /** Every run with wrapped counters is the projection of the same run with unbounded counters. */
  lemma {:induction false} RunRefines<T>(m: nat, c: nat, s: State<T>, steps: seq<Step<T>>)
    requires Inv(c, s) && c < m && m % c == 0
    ensures Run(m, c, Project(m, s), steps) == Project(m, Run(0, c, s, steps))
    decreases |steps|
  {
    if steps != [] {
      StepRefines(m, c, s, steps[0]);
      StepKeepsInv(c, s, steps[0]);
      RunRefines(m, c, Next(0, c, s, steps[0]), steps[1..]);
    }
  }

  // ------------------------------------------------------------------ the promises of the queue

  /** The slot the producer is about to write, or has written but not yet published. */
  ghost predicate ProducerTouches<T>(m: nat, c: nat, s: State<T>, slot: int)
    requires 0 < c
  {
    || (s.producer.PeerLoaded? && Wrap(m, s.producer.write - s.producer.seenRead) < c && slot == s.producer.write % c)
    || (s.producer.SlotFilled? && slot == s.producer.write % c)
  }

  /** The slot the consumer is about to read, or has read but not yet released. */
  ghost predicate ConsumerTouches<T>(c: nat, s: State<T>, slot: int)
    requires 0 < c
  {
    || (s.consumer.WriteLoaded? && s.consumer.read != s.consumer.seenWrite && slot == s.consumer.read % c)
    || (s.consumer.SlotTaken? && slot == s.consumer.read % c)
  }

  /** FIFO without loss or invention, bounded occupancy, and no slot used from both sides at once. */
  ghost predicate Safe<T>(m: nat, c: nat, s: State<T>)
    requires 0 < c
  {
    && s.popped <= s.pushed
    && |s.pushed| - |s.popped| <= c
    && Wrap(m, s.write - s.read) == |s.pushed| - |s.popped|
    && forall slot :: !(ProducerTouches(m, c, s, slot) && ConsumerTouches(c, s, slot))
  }

  lemma UnboundedSafe<T>(c: nat, s: State<T>)
    requires Inv(c, s)
    ensures Safe(0, c, s)
  {
    forall slot | ProducerTouches(0, c, s, slot)
      ensures !ConsumerTouches(c, s, slot)
    {
      if s.read < s.write {
        DistinctSlots(c, s.read, s.write);
      }
    }
  }

  lemma ProjectedSafe<T>(m: nat, c: nat, s: State<T>)
    requires Inv(c, s) && c < m && m % c == 0
    ensures Safe(m, c, Project(m, s))
  {
    UnboundedSafe(c, s);
    var p := Project(m, s);
    WrappedDistance(m, s.write, s.read);
    forall slot | ProducerTouches(m, c, p, slot)
      ensures !ConsumerTouches(c, p, slot)
    {
      WrappedSlot(m, c, s.write);
      WrappedSlot(m, c, s.read);
      if s.producer.PeerLoaded? {
        WrappedDistance(m, s.producer.write, s.producer.seenRead);
      }
      assert ProducerTouches(0, c, s, slot);
      assert !ConsumerTouches(c, s, slot);
      if s.consumer.WriteLoaded? {
        WrappedDistance(m, s.consumer.seenWrite, s.consumer.read);
      }
    }
  }

  /** The queue of the source is safe under every interleaving when its capacity divides 2^64. */
  lemma SafeUnderEveryInterleaving<T>(m: nat, c: nat, storage: seq<T>, steps: seq<Step<T>>)
    requires 1 < c == |storage| && c < m && m % c == 0
    ensures Safe(m, c, Run(m, c, Init(storage), steps))
  {
    InitInv(c, storage);
    RunKeepsInv(c, Init(storage), steps);
    RunRefines(m, c, Init(storage), steps);
    assert Project(m, Init(storage)) == Init(storage);
    ProjectedSafe(m, c, Run(0, c, Init(storage), steps));
  }
}
