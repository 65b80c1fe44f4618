/** The mediator as the source runs it: two bounded queues, a 64-slot echo ring and two rate windows, in place. */
module MidiMediator {
  import opened MidiMediation
  import opened MidiMessages
  import opened RealtimeBuffer
  import opened WordArithmetic

  datatype EchoRecord = EchoRecord(packet: ShortMidiPacket, target: Endpoint, occupied: bool)

  const EMPTY_PACKET: ShortMidiPacket := ShortMidiPacket((0, 0, 0), 0, 0, 0)
  const EMPTY_RECORD: EchoRecord := EchoRecord(EMPTY_PACKET, Hardware, false)

  function Index(e: Endpoint): nat { if e.Hardware? then 0 else 1 }

  predicate RecordMatches(policy: Policy, r: EchoRecord, source: Endpoint, p: ShortMidiPacket) {
    && r.occupied && r.target == source && SameMessage(r.packet, p)
    && ElapsedWithin(r.packet.timestamp, p.timestamp, policy.echoWindow)
  }

  class MidiMediator {
    var policy: Policy
    var transport: Transport
    const toHardware: SpscRingBuffer<RoutedMidiPacket>
    const toDaw: SpscRingBuffer<RoutedMidiPacket>
    const echoRecords: array<EchoRecord>
    var nextEchoRecord: nat
    const rateWindows: array<RateWindow>
    // Every packet forwarded since construction or reset.
    ghost var log: seq<RoutedMidiPacket>

    ghost predicate Shape()
      reads this
    {
      && echoRecords.Length == ECHO_RECORDS && rateWindows.Length == 2
      && toHardware != toDaw && toHardware.storage != toDaw.storage
      && toHardware.storage.Length == QUEUE_CAPACITY && toDaw.storage.Length == QUEUE_CAPACITY
    }

    /** Slot j % 64 of the ring holds log entry j for the last 64 entries; slots never written are unoccupied. */
    ghost predicate RingHoldsRecentLog()
      reads this, echoRecords
    {
      && echoRecords.Length == ECHO_RECORDS
      && nextEchoRecord == |log| % ECHO_RECORDS
      && (forall j :: 0 <= j < |log| && |log| - ECHO_RECORDS <= j ==>
            echoRecords[j % ECHO_RECORDS] == EchoRecord(log[j].packet, log[j].target, true))
      && (forall k :: |log| <= k < ECHO_RECORDS ==> !echoRecords[k].occupied)
    }

    ghost predicate Valid()
      reads this, echoRecords, rateWindows, toHardware, toHardware.storage, toDaw, toDaw.storage
    {
      && Shape()
      && toHardware.Valid() && toDaw.Valid()
      && RingHoldsRecentLog()
    }

    /** The value of the mediator, on which its runs are reasoned about. */
    ghost function Value(): Mediation
      reads this, rateWindows, toHardware, toDaw
      requires rateWindows.Length == 2
    {
      Mediation(policy, transport,
                Outbox(toHardware.pushed, |toHardware.popped|),
                Outbox(toDaw.pushed, |toDaw.popped|),
                rateWindows[0], rateWindows[1], log)
    }

    /** Valid, and what the mediator holds is what its log says it should. */
    ghost predicate Sound()
      reads this, echoRecords, rateWindows, toHardware, toHardware.storage, toDaw, toDaw.storage
    {
      Valid() && Conserved(Value())
    }

    constructor (policy: Policy)
      ensures Sound() && Value() == Fresh(policy)
      ensures fresh(toHardware) && fresh(toDaw) && fresh(toHardware.storage) && fresh(toDaw.storage)
      ensures fresh(echoRecords) && fresh(rateWindows)
    {
      this.policy := policy;
      transport := StoppedTransport(policy);
      toHardware := new SpscRingBuffer(QUEUE_CAPACITY);
      toDaw := new SpscRingBuffer(QUEUE_CAPACITY);
      echoRecords := new EchoRecord[ECHO_RECORDS](_ => EMPTY_RECORD);
      nextEchoRecord := 0;
      rateWindows := new RateWindow[2](_ => FRESH_WINDOW);
      log := [];
    }

    /** The scan over the 64 slots agrees with a search of the recent log. */
    method CheckEcho(source: Endpoint, packet: ShortMidiPacket) returns (echo: bool)
      requires Valid()
      ensures echo <==> IsEcho(Value(), source, packet)
    {
      echo := false;
      var i := 0;
      while i < echoRecords.Length
        invariant 0 <= i <= echoRecords.Length
        invariant echo == exists k :: 0 <= k < i && RecordMatches(policy, echoRecords[k], source, packet)
      {
        if RecordMatches(policy, echoRecords[i], source, packet) {
          echo := true;
        }
        i := i + 1;
      }
      ScanIsSearch(source, packet);
    }

    lemma ScanIsSearch(source: Endpoint, packet: ShortMidiPacket)
      requires Valid()
      ensures (exists k :: 0 <= k < ECHO_RECORDS && RecordMatches(policy, echoRecords[k], source, packet))
              <==> IsEcho(Value(), source, packet)
    {
      var recent := Recent(log);
      var base := |log| - |recent|;
      forall k | 0 <= k < ECHO_RECORDS && RecordMatches(policy, echoRecords[k], source, packet)
        ensures IsEcho(Value(), source, packet)
      {
        var j := SlotOwner(|log|, k);
        assert recent[j - base] == log[j];
        assert IsReturnOf(policy, recent[j - base], source, packet);
      }
      forall i | 0 <= i < |recent| && IsReturnOf(policy, recent[i], source, packet)
        ensures exists k :: 0 <= k < ECHO_RECORDS && RecordMatches(policy, echoRecords[k], source, packet)
      {
        assert recent[i] == log[base + i];
        assert RecordMatches(policy, echoRecords[(base + i) % ECHO_RECORDS], source, packet);
      }
    }

    method ConsumeRateBudget(source: Endpoint, now: nat) returns (granted: bool)
      requires Valid()
      modifies rateWindows
      ensures Valid()
      ensures var (w, ok) := Consume(policy, WindowOf(old(Value()), source), now);
              granted == ok && Value() == Charge(old(Value()), source, w)
    {
      if policy.maximumMessagesPerWindow == 0 || policy.rateWindow == 0 {
        return false;
      }
      var index := Index(source);
      var window := rateWindows[index];
      if window.messages == 0 || now < window.startedAt || now - window.startedAt >= policy.rateWindow {
        rateWindows[index] := RateWindow(now, 1);
        return true;
      }
      if window.messages >= policy.maximumMessagesPerWindow {
        return false;
      }
      rateWindows[index] := window.(messages := window.messages + 1);
      return true;
    }

    /** The push onto the queue of the packet's target. */
    method Offer(routed: RoutedMidiPacket) returns (queued: bool)
      requires Valid()
      modifies toHardware, toHardware.storage, toDaw, toDaw.storage
      ensures Valid()
      ensures queued == (Queued(OutboxOf(old(Value()), routed.target)) < QUEUE_CAPACITY)
      ensures Value() == if queued then Enqueue(old(Value()), routed) else old(Value())
    {
      if routed.target == Hardware {
        queued := toHardware.TryPush(routed);
      } else {
        queued := toDaw.TryPush(routed);
      }
    }

    method RememberForward(routed: RoutedMidiPacket)
      requires Valid()
      modifies echoRecords, this`nextEchoRecord, this`log
      ensures Valid()
      ensures Value() == old(Value()).(log := old(log) + [routed])
    {
      RingSlots(|log|);
      echoRecords[nextEchoRecord] := EchoRecord(routed.packet, routed.target, true);
      nextEchoRecord := (nextEchoRecord + 1) % ECHO_RECORDS;
      log := log + [routed];
    }

    method Announce(source: Endpoint, packet: ShortMidiPacket)
      requires Valid()
      modifies this`transport
      ensures Valid()
      ensures Value() == old(Value()).(transport := UpdateTransport(old(transport), source, packet))
    {
      var status := packet.bytes.0;
      if status == 0xF8 {
        transport := transport.(clockPulses := (transport.clockPulses + 1) % WORD);
        transport := transport.(lastClockTimestamp := packet.timestamp);
        return;
      }
      if status == 0xFA {
        transport := transport.(runState := Running);
      } else if status == 0xFB {
        transport := transport.(runState := Continuing);
      } else if status == 0xFC {
        transport := transport.(runState := Stopped);
      } else if status == 0xF2 && packet.size == 3 {
        transport := transport.(songPosition := packet.bytes.1 + 128 * packet.bytes.2);
      } else {
        return;
      }
      transport := transport.(transportAuthority := source);
      transport := transport.(lastTransportTimestamp := packet.timestamp);
    }

    method Admit(source: Endpoint, packet: ShortMidiPacket) returns (decision: Decision)
      requires Valid()
      modifies this`nextEchoRecord, this`log, this`transport, echoRecords, rateWindows
      modifies toHardware, toHardware.storage, toDaw, toDaw.storage
      ensures Valid()
      ensures (Value(), decision) == MidiMediation.Admit(old(Value()), source, packet)
    {
      var granted := ConsumeRateBudget(source, packet.timestamp);
      if !granted {
        return RateLimited;
      }
      var routed := RoutedMidiPacket(packet, source, Opposite(source));
      var queued := Offer(routed);
      if !queued {
        return QueueFull;
      }
      RememberForward(routed);
      Announce(source, packet);
      return Forwarded;
    }

    method Route(source: Endpoint, packet: ShortMidiPacket) returns (decision: Decision)
      requires Sound()
      modifies this, echoRecords, rateWindows, toHardware, toHardware.storage, toDaw, toDaw.storage
      ensures Sound()
      ensures (Value(), decision) == MidiMediation.Route(old(Value()), source, packet)
    {
      StepConserves(Value(), RouteEvent(source, packet));
      if !ValidPacket(packet) {
        return InvalidMessage;
      }
      if (source == Hardware && !policy.hardwareToDaw) || (source == Daw && !policy.dawToHardware) {
        return DirectionBlocked;
      }
      if IsClock(packet) && source != policy.clockAuthority {
        return AuthorityBlocked;
      }
      if IsTransport(packet) && source != policy.transportAuthority {
        return AuthorityBlocked;
      }
      var echo := CheckEcho(source, packet);
      if echo {
        return EchoSuppressed;
      }
      decision := Admit(source, packet);
    }

    method PopForHardware(current: RoutedMidiPacket) returns (ok: bool, packet: RoutedMidiPacket)
      requires Sound()
      modifies toHardware
      ensures Sound()
      ensures Value() == Pop(old(Value()), Hardware)
      ensures Front(old(Value()), Hardware) == if ok then Packet(packet) else Nothing
      ensures !ok ==> packet == current
    {
      StepConserves(Value(), PopEvent(Hardware));
      ok, packet := toHardware.TryPop(current);
    }

    method PopForDaw(current: RoutedMidiPacket) returns (ok: bool, packet: RoutedMidiPacket)
      requires Sound()
      modifies toDaw
      ensures Sound()
      ensures Value() == Pop(old(Value()), Daw)
      ensures Front(old(Value()), Daw) == if ok then Packet(packet) else Nothing
      ensures !ok ==> packet == current
    {
      StepConserves(Value(), PopEvent(Daw));
      ok, packet := toDaw.TryPop(current);
    }

    method ChangePolicy(policy: Policy)
      requires Sound()
      modifies this`policy, this`transport, rateWindows
      ensures Sound() && Value() == SetPolicy(old(Value()), policy)
    {
      StepConserves(Value(), PolicyEvent(policy));
      this.policy := policy;
      transport := transport.(transportAuthority := policy.transportAuthority);
      transport := transport.(clockAuthority := policy.clockAuthority);
      for i := 0 to rateWindows.Length
        invariant forall k :: 0 <= k < i ==> rateWindows[k] == FRESH_WINDOW
        invariant this.policy == policy
        invariant transport == old(transport).(transportAuthority := policy.transportAuthority,
                                               clockAuthority := policy.clockAuthority)
      {
        rateWindows[i] := FRESH_WINDOW;
      }
    }

    method Reset()
      requires Sound()
      modifies this, echoRecords, rateWindows, toHardware, toDaw
      ensures Sound() && Value() == Fresh(old(policy))
    {
      toHardware.Reset();
      toDaw.Reset();
      forall i | 0 <= i < echoRecords.Length {
        echoRecords[i] := EMPTY_RECORD;
      }
      nextEchoRecord := 0;
      forall i | 0 <= i < rateWindows.Length {
        rateWindows[i] := FRESH_WINDOW;
      }
      transport := StoppedTransport(policy);
      log := [];
    }
  }

  /** Which entry of a log of n packets an occupied slot k of the ring belongs to. */
  lemma SlotOwner(n: nat, k: nat) returns (j: int)
    requires k < ECHO_RECORDS
    ensures k < n ==> 0 <= j < n && n - ECHO_RECORDS <= j && j % ECHO_RECORDS == k
  {
    j := n - 1 - (n - 1 - k) % ECHO_RECORDS;
  }

  lemma RingSlots(n: nat)
    ensures (n % ECHO_RECORDS + 1) % ECHO_RECORDS == (n + 1) % ECHO_RECORDS
    ensures forall j :: n - ECHO_RECORDS < j < n && 0 <= j ==> j % ECHO_RECORDS != n % ECHO_RECORDS
  {
    WrappedSuccessor(ECHO_RECORDS, n);
    forall j | n - ECHO_RECORDS < j < n && 0 <= j
      ensures j % ECHO_RECORDS != n % ECHO_RECORDS
    {
      DistinctSlots(ECHO_RECORDS, j, n);
    }
  }
}
