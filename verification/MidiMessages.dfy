/** Short MIDI packets, the validity test, and the policy that mediates them. */
module MidiMessages {
  import opened Bytes

  datatype Endpoint = Hardware | Daw

  function Opposite(e: Endpoint): Endpoint { if e.Hardware? then Daw else Hardware }

  datatype ShortMidiPacket = ShortMidiPacket(bytes: (Byte, Byte, Byte), size: Byte, timestamp: nat, sequence: nat)

  datatype RoutedMidiPacket = RoutedMidiPacket(packet: ShortMidiPacket, source: Endpoint, target: Endpoint)

  datatype Policy = Policy(
    transportAuthority: Endpoint,
    clockAuthority: Endpoint,
    hardwareToDaw: bool,
    dawToHardware: bool,
    maximumMessagesPerWindow: nat,
    rateWindow: nat,
    echoWindow: nat)

  datatype RunState = Stopped | Running | Continuing

  datatype Transport = Transport(
    runState: RunState,
    transportAuthority: Endpoint,
    clockAuthority: Endpoint,
    clockPulses: nat,
    songPosition: nat,
    lastTransportTimestamp: nat,
    lastClockTimestamp: nat)

  datatype Decision =
    | Forwarded | InvalidMessage | DirectionBlocked | AuthorityBlocked | EchoSuppressed | RateLimited | QueueFull

  /** The branches of the source, in its order. */
  predicate ValidPacket(p: ShortMidiPacket) {
    var status := p.bytes.0;
    if p.size == 0 || p.size > 3 then false
    else if status < 0x80 then false
    else if status >= 0xF8 then p.size == 1
    else if status == 0xF1 || status == 0xF3 then p.size == 2 && p.bytes.1 < 0x80
    else if status == 0xF2 then p.size == 3 && p.bytes.1 < 0x80 && p.bytes.2 < 0x80
    else if status >= 0xF0 then false
    else
      var kind := status / 16 * 16;
      var expected := if kind == 0xC0 || kind == 0xD0 then 2 else 3;
      p.size == expected && p.bytes.1 < 0x80 && (p.size == 2 || p.bytes.2 < 0x80)
  }

  /** The number of data bytes MIDI 1.0 gives each status this path carries; None for the statuses it does not. */
  function DataBytes(status: Byte): (n: int)
  {
    if status >= 0xF8 then 0
    else if status == 0xF2 then 2
    else if status == 0xF1 || status == 0xF3 then 1
    else if status >= 0xF0 || status < 0x80 then -1
    else if 0xC0 <= status < 0xE0 then 1
    else 2
  }

  function ByteAt(p: ShortMidiPacket, i: nat): Byte
    requires i < 3
  {
    if i == 0 then p.bytes.0 else if i == 1 then p.bytes.1 else p.bytes.2
  }

  /** A packet is accepted exactly when its status is one this path carries, with its data bytes and no others. */
  lemma ValidPacketIsMidi(p: ShortMidiPacket)
    ensures ValidPacket(p) <==>
            && DataBytes(p.bytes.0) >= 0
            && p.size == 1 + DataBytes(p.bytes.0)
            && forall i :: 1 <= i < p.size ==> ByteAt(p, i) < 0x80
  {
    if p.size <= 3 {
      assert p.size >= 2 ==> ByteAt(p, 1) == p.bytes.1;
      assert p.size >= 3 ==> ByteAt(p, 2) == p.bytes.2;
    }
  }

  predicate IsClock(p: ShortMidiPacket) { p.size == 1 && p.bytes.0 == 0xF8 }

  predicate IsTransport(p: ShortMidiPacket) {
    if p.size == 1 then p.bytes.0 == 0xFA || p.bytes.0 == 0xFB || p.bytes.0 == 0xFC
    else p.size == 3 && p.bytes.0 == 0xF2
  }

  /** Equal sizes and equal bytes up to that size; timestamps and sequence numbers do not matter. */
  predicate SameMessage(a: ShortMidiPacket, b: ShortMidiPacket) {
    && a.size == b.size
    && (a.size > 0 ==> a.bytes.0 == b.bytes.0)
    && (a.size > 1 ==> a.bytes.1 == b.bytes.1)
    && (a.size > 2 ==> a.bytes.2 == b.bytes.2)
  }

  /** Two packets are the same message exactly when they are equally long and agree in every byte that counts. */
  lemma SameMessageIsSameBytes(a: ShortMidiPacket, b: ShortMidiPacket)
    requires a.size <= 3
    ensures SameMessage(a, b) <==> a.size == b.size && forall i :: 0 <= i < a.size ==> ByteAt(a, i) == ByteAt(b, i)
  {
    if a.size == b.size && forall i :: 0 <= i < a.size ==> ByteAt(a, i) == ByteAt(b, i) {
      assert a.size > 0 ==> ByteAt(a, 0) == ByteAt(b, 0);
      assert a.size > 1 ==> ByteAt(a, 1) == ByteAt(b, 1);
      assert a.size > 2 ==> ByteAt(a, 2) == ByteAt(b, 2);
    }
  }

  predicate ElapsedWithin(earlier: nat, later: nat, window: nat) {
    later >= earlier && later - earlier <= window
  }

  /** Packet `p`, arriving from `source`, is the return of the forwarded packet `r`. */
  predicate IsReturnOf(policy: Policy, r: RoutedMidiPacket, source: Endpoint, p: ShortMidiPacket) {
    && r.target == source
    && SameMessage(r.packet, p)
    && ElapsedWithin(r.packet.timestamp, p.timestamp, policy.echoWindow)
  }
}
