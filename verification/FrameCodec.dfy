/** Length-prefixed frames over a byte pipe whose reads and writes may be partial. */
module FrameCodec {
  import opened Bytes
  import opened Wrappers

  const MAXIMUM_FRAME: nat := 65536

  predicate InRange(payload: ByteString) { 0 < |payload| <= MAXIMUM_FRAME }

  /** Four bytes, least significant first. */
  function Header(size: nat): ByteString {
    [size % 256, size / 0x100 % 256, size / 0x1_0000 % 256, size / 0x100_0000 % 256]
  }

  function HeaderValue(h: ByteString): nat
    requires |h| == 4
  {
    var b0: nat, b1: nat, b2: nat, b3: nat := h[0], h[1], h[2], h[3];
    b0 + 0x100 * b1 + 0x1_0000 * b2 + 0x100_0000 * b3
  }

  function Frame(payload: ByteString): ByteString { Header(|payload|) + payload }

  datatype Decoded = Decoded(payload: ByteString, rest: ByteString)

  /** The first frame of a stream, if it is all there and its size is in range. */
  function Decode(stream: ByteString): Option<Decoded> {
    if |stream| < 4 then None
    else
      var size := HeaderValue(stream[..4]);
      if size == 0 || size > MAXIMUM_FRAME || |stream| < 4 + size then None
      else Some(Decoded(stream[4..4 + size], stream[4 + size..]))
  }

  /** Every frame that can be read off a stream. */
  function DecodeAll(stream: ByteString): seq<ByteString>
    decreases |stream|
  {
    match Decode(stream)
    case None => []
    case Some(d) => [d.payload] + DecodeAll(d.rest)
  }

  function Encode(payloads: seq<ByteString>): ByteString {
    if payloads == [] then [] else Frame(payloads[0]) + Encode(payloads[1..])
  }

  /** The longest beginning of a list whose items all qualify. */
  function TakeWhile<T>(qualifies: T -> bool, items: seq<T>): seq<T> {
    if items == [] || !qualifies(items[0]) then [] else [items[0]] + TakeWhile(qualifies, items[1..])
  }

  lemma {:induction false} TakeWhileQualifies<T>(qualifies: T -> bool, items: seq<T>)
    ensures TakeWhile(qualifies, items) <= items
    ensures forall item :: item in TakeWhile(qualifies, items) ==> qualifies(item)
  {
    if items != [] && qualifies(items[0]) {
      TakeWhileQualifies(qualifies, items[1..]);
      assert items == [items[0]] + items[1..];
    }
  }

  /** If the first k items qualify they are taken, and no more if they are all or the next one does not. */
  lemma {:induction false} TakeWhileTakes<T>(qualifies: T -> bool, items: seq<T>, k: nat)
    requires k <= |items| && forall j :: 0 <= j < k ==> qualifies(items[j])
    ensures items[..k] <= TakeWhile(qualifies, items)
    ensures k == |items| || !qualifies(items[k]) ==> TakeWhile(qualifies, items) == items[..k]
  {
    if k > 0 {
      TakeWhileTakes(qualifies, items[1..], k - 1);
      assert items[..k] == [items[0]] + items[1..][..k - 1];
    }
  }

  /** The payloads that go out if each is written in turn until one is refused. */
  function Sendable(payloads: seq<ByteString>): seq<ByteString> { TakeWhile(p => InRange(p), payloads) }

  /** What arrives of them if so many bytes are taken. */
  function Delivered(payloads: seq<ByteString>, room: nat): ByteString {
    var frames := Encode(Sendable(payloads));
    frames[..Min(|frames|, room)]
  }

  // ------------------------------------------------------------------ the pipe

  /** `wire` holds the bytes written and not yet read; `budget` is how many more the other side will take. */
  class Pipe {
    var wire: ByteString
    var budget: nat

    constructor (wire: ByteString, budget: nat)
      ensures this.wire == wire && this.budget == budget
    {
      this.wire, this.budget := wire, budget;
    }

    /** One system call: it takes some of the bytes, at least one, or fails. */
    method WriteFile(data: ByteString) returns (ok: bool, written: nat)
      requires data != []
      modifies this
      ensures ok == (old(budget) > 0)
      ensures ok ==> 0 < written <= |data| && written <= old(budget)
      ensures !ok ==> written == 0
      ensures wire == old(wire) + data[..if ok then written else 0] && budget == old(budget) - written
    {
      if budget == 0 {
        assert wire == wire + data[..0];
        return false, 0;
      }
      written :| 0 < written <= |data| && written <= budget;
      wire := wire + data[..written];
      budget := budget - written;
      ok := true;
    }

    /** One system call: it delivers some of the bytes asked for, at least one, or fails at the end of the stream. */
    method ReadFile(most: nat) returns (ok: bool, data: ByteString)
      requires most > 0
      modifies this`wire
      ensures ok == (old(wire) != [])
      ensures ok ==> 0 < |data| <= most && data + wire == old(wire)
      ensures !ok ==> data == [] && wire == old(wire)
    {
      if wire == [] {
        return false, [];
      }
      var count :| 0 < count <= |wire| && count <= most;
      data := wire[..count];
      wire := wire[count..];
      ok := true;
    }

    method WriteAll(data: ByteString) returns (ok: bool)
      modifies this
      ensures ok == (|data| <= old(budget))
      ensures wire == old(wire) + data[..Min(|data|, old(budget))]
      ensures budget == old(budget) - Min(|data|, old(budget))
    {
      var cursor := 0;
      assert wire == wire + data[..0];
      while cursor < |data|
        invariant cursor <= |data| && cursor <= old(budget)
        invariant wire == old(wire) + data[..cursor] && budget == old(budget) - cursor
      {
        var more, written := WriteFile(data[cursor..]);
        if !more {
          return false;
        }
        assert data[..cursor] + data[cursor..][..written] == data[..cursor + written];
        cursor := cursor + written;
      }
      ok := true;
    }

    /** Fills the whole buffer from the stream, or fails having used the stream up. */
    method ReadAll(buffer: array<Byte>) returns (ok: bool)
      modifies this`wire, buffer
      ensures ok == (buffer.Length <= old(|wire|))
      ensures ok ==> buffer[..] + wire == old(wire)
      ensures !ok ==> wire == []
    {
      var cursor := 0;
      while cursor < buffer.Length
        invariant cursor <= buffer.Length
        invariant buffer[..cursor] + wire == old(wire)
      {
        var more, data := ReadFile(buffer.Length - cursor);
        if !more {
          return false;
        }
        ghost var before := buffer[..cursor];
        forall k | 0 <= k < |data| {
          buffer[cursor + k] := data[k];
        }
        assert buffer[..cursor + |data|] == before + data;
        cursor := cursor + |data|;
      }
      assert buffer[..cursor] == buffer[..];
      ok := true;
    }

    /** A payload in range goes out as its frame, as far as the budget reaches; any other writes nothing. */
    method WriteFrame(payload: ByteString) returns (ok: bool)
      modifies this
      ensures ok == (InRange(payload) && |Frame(payload)| <= old(budget))
      ensures InRange(payload) ==>
                var taken := Min(|Frame(payload)|, old(budget));
                wire == old(wire) + Frame(payload)[..taken] && budget == old(budget) - taken
      ensures !InRange(payload) ==> wire == old(wire) && budget == old(budget)
    {
      if payload == [] || |payload| > MAXIMUM_FRAME {
        return false;
      }
      var size := |payload|;
      var header := [size % 256, size / 0x100 % 256, size / 0x1_0000 % 256, size / 0x100_0000 % 256];
      ghost var was := wire;
      ghost var room := budget;
      assert Frame(payload) == header + payload;
      ok := WriteAll(header);
      if !ok {
        assert Frame(payload)[..room] == header[..room];
        return false;
      }
      assert header[..4] == header;
      ok := WriteAll(payload);
      assert Frame(payload)[..Min(|Frame(payload)|, room)] == header + payload[..Min(|payload|, room - 4)];
    }

    /** Reading a frame is decoding the stream; `isObject` is the JSON library's verdict on the payload. */
    method ReadFrame(isObject: ByteString -> bool) returns (ok: bool, payload: ByteString)
      modifies this`wire
      ensures match Decode(old(wire))
              case Some(d) => ok == isObject(d.payload) && payload == d.payload && wire == d.rest
              case None => !ok
    {
      ghost var stream := wire;
      var header := new Byte[4];
      var filled := ReadAll(header);
      if !filled {
        return false, [];
      }
      assert stream[..4] == header[..] && stream[4..] == wire;
      var b0: nat, b1: nat, b2: nat, b3: nat := header[0], header[1], header[2], header[3];
      var size := b0 + 0x100 * b1 + 0x1_0000 * b2 + 0x100_0000 * b3;
      if size == 0 || size > MAXIMUM_FRAME {
        return false, [];
      }
      var buffer := new Byte[size];
      filled := ReadAll(buffer);
      if !filled {
        return false, [];
      }
      assert stream[4..][..size] == buffer[..] && stream[4..][size..] == wire;
      assert stream[4..4 + size] == buffer[..] && stream[4 + size..] == wire;
      payload := buffer[..];
      ok := isObject(payload);
    }

    /** Writes frame after frame until one fails. */
    method WriteFrames(payloads: seq<ByteString>)
      modifies this
      ensures wire == old(wire) + Delivered(payloads, old(budget))
    {
      ghost var was, room := wire, budget;
      for i := 0 to |payloads|
        invariant forall j :: 0 <= j < i ==> InRange(payloads[j])
        invariant |Encode(payloads[..i])| <= room
        invariant wire == was + Encode(payloads[..i]) && budget == room - |Encode(payloads[..i])|
      {
        var ok := WriteFrame(payloads[i]);
        if !ok {
          StoppedAt(was, payloads, i, room);
          return;
        }
        FrameFollows(was, payloads, i, room);
      }
      assert payloads[..|payloads|] == payloads;
      NeverStopped(payloads, room);
    }

    /** Reads frame after frame until there is none, or one that is not an object. */
    method ReadFrames(isObject: ByteString -> bool) returns (payloads: seq<ByteString>)
      modifies this`wire
      ensures payloads == TakeWhile(isObject, DecodeAll(old(wire)))
    {
      payloads := [];
      ghost var all := DecodeAll(wire);
      while true
        invariant payloads + DecodeAll(wire) == all
        invariant forall j :: 0 <= j < |payloads| ==> isObject(payloads[j])
        decreases |wire|
      {
        ghost var stream := wire;
        var ok, payload := ReadFrame(isObject);
        if !ok {
          LastRead(isObject, payloads, stream);
          return;
        }
        assert payloads + DecodeAll(stream) == payloads + [payload] + DecodeAll(wire);
        payloads := payloads + [payload];
      }
    }
  }

  lemma FrameFollows(was: ByteString, payloads: seq<ByteString>, i: nat, room: nat)
    requires i < |payloads| && |Encode(payloads[..i])| + |Frame(payloads[i])| <= room
    ensures var taken := Min(|Frame(payloads[i])|, room - |Encode(payloads[..i])|);
            && was + Encode(payloads[..i]) + Frame(payloads[i])[..taken] == was + Encode(payloads[..i + 1])
            && |Encode(payloads[..i])| + taken == |Encode(payloads[..i + 1])| <= room
  {
    EncodeNext(payloads, i);
    assert Frame(payloads[i])[..|Frame(payloads[i])|] == Frame(payloads[i]);
  }

  /** The frames before payload i are out, and it is out of range or does not fit any more. */
  lemma StoppedAt(was: ByteString, payloads: seq<ByteString>, i: nat, room: nat)
    requires i < |payloads| && forall j :: 0 <= j < i ==> InRange(payloads[j])
    requires |Encode(payloads[..i])| <= room
    requires InRange(payloads[i]) ==> room < |Encode(payloads[..i])| + |Frame(payloads[i])|
    ensures InRange(payloads[i]) ==>
              was + Encode(payloads[..i]) + Frame(payloads[i])[..room - |Encode(payloads[..i])|]
                == was + Delivered(payloads, room)
    ensures !InRange(payloads[i]) ==> was + Encode(payloads[..i]) == was + Delivered(payloads, room)
  {
    var sendable := Sendable(payloads);
    TakeWhileTakes(p => InRange(p), payloads, i);
    if InRange(payloads[i]) {
      TakeWhileTakes(p => InRange(p), payloads, i + 1);
      assert sendable[..i + 1] == payloads[..i + 1];
      assert sendable[..i] == payloads[..i] && sendable[i] == payloads[i];
      CutBetween(sendable, i, room);
    } else {
      assert sendable == payloads[..i];
    }
  }

  lemma NeverStopped(payloads: seq<ByteString>, room: nat)
    requires AllInRange(payloads) && |Encode(payloads)| <= room
    ensures Delivered(payloads, room) == Encode(payloads)
  {
    TakeWhileTakes(p => InRange(p), payloads, |payloads|);
    assert payloads[..|payloads|] == payloads;
  }

  /** The objects read so far are all that will be read. */
  lemma LastRead(isObject: ByteString -> bool, payloads: seq<ByteString>, stream: ByteString)
    requires forall j :: 0 <= j < |payloads| ==> isObject(payloads[j])
    requires Decode(stream).None? || !isObject(Decode(stream).value.payload)
    ensures payloads == TakeWhile(isObject, payloads + DecodeAll(stream))
  {
    var all := payloads + DecodeAll(stream);
    assert all[..|payloads|] == payloads;
    TakeWhileTakes(isObject, all, |payloads|);
  }

  // ------------------------------------------------------------------ streams of frames

  lemma HeaderRoundTrip(size: nat)
    requires size < 0x1_0000_0000
    ensures |Header(size)| == 4 && HeaderValue(Header(size)) == size
  {
    var q1, q2, q3 := size / 0x100, size / 0x1_0000, size / 0x100_0000;
    assert size == 0x100 * q1 + size % 256;
    assert q1 == 0x100 * q2 + q1 % 256 by { Digit(size, 0x100); }
    assert q2 == 0x100 * q3 + q2 % 256 by { Digit(size, 0x1_0000); }
    assert q3 % 256 == q3;
  }

  lemma Digit(size: nat, weight: nat)
    requires weight == 0x100 || weight == 0x1_0000
    ensures size / weight == 0x100 * (size / (0x100 * weight)) + size / weight % 256
  {
  }

  /** The first byte of a header is the lowest eight bits of the size, and the others are those of the rest. */
  lemma HeaderIsLittleEndian(low: Byte, high: nat)
    requires high < 0x100_0000
    ensures Header(low + 256 * high) == [low] + Header(high)[..3]
  {
    var size := low + 256 * high;
    Digit(size, 0x100);
    Digit(size, 0x1_0000);
    assert size / 0x100 == high && size / 0x1_0000 == high / 0x100 && size / 0x100_0000 == high / 0x1_0000;
  }

  lemma HeaderOfValue(h: ByteString)
    requires |h| == 4
    ensures Header(HeaderValue(h)) == h
  {
    var b1: nat, b2: nat, b3: nat := h[1], h[2], h[3];
    assert Header(b3)[..1] == [h[3]];
    HeaderIsLittleEndian(h[2], b3);
    assert Header(b2 + 256 * b3)[..2] == [h[2], h[3]];
    HeaderIsLittleEndian(h[1], b2 + 256 * b3);
    assert Header(b1 + 256 * (b2 + 256 * b3))[..3] == [h[1], h[2], h[3]];
    HeaderIsLittleEndian(h[0], b1 + 256 * (b2 + 256 * b3));
  }

  ghost predicate AllInRange(payloads: seq<ByteString>) {
    forall i :: 0 <= i < |payloads| ==> InRange(payloads[i])
  }

  /** A frame decodes to its payload, and leaves whatever follows it. */
  lemma DecodeFrame(payload: ByteString, rest: ByteString)
    requires InRange(payload)
    ensures Decode(Frame(payload) + rest) == Some(Decoded(payload, rest))
  {
    var stream := Frame(payload) + rest;
    HeaderRoundTrip(|payload|);
    assert stream[..4] == Header(|payload|);
    assert stream[4..4 + |payload|] == payload;
    assert stream[4 + |payload|..] == rest;
  }

  /** A stream decodes to a payload and a rest exactly if it is the frame of that payload, in range, and the rest. */
  lemma DecodesExactly(stream: ByteString, payload: ByteString, rest: ByteString)
    ensures InRange(payload) <==> 1 <= |payload| <= 65536
    ensures Decode(stream) == Some(Decoded(payload, rest)) <==> InRange(payload) && stream == Frame(payload) + rest
  {
    if InRange(payload) && stream == Frame(payload) + rest {
      DecodeFrame(payload, rest);
    }
    if Decode(stream) == Some(Decoded(payload, rest)) {
      HeaderOfValue(stream[..4]);
      assert stream == stream[..4] + (stream[4..4 + |payload|] + stream[4 + |payload|..]);
    }
  }

  /** The beginning of a frame that is not all there decodes to nothing. */
  lemma TornFrameIsNotDecoded(payload: ByteString, n: nat)
    requires InRange(payload) && n < |Frame(payload)|
    ensures Decode(Frame(payload)[..n]) == None
  {
    HeaderRoundTrip(|payload|);
    if n >= 4 {
      assert Frame(payload)[..n][..4] == Header(|payload|);
    }
  }

  /** How many of the frames lie wholly within the first n bytes. */
  function WholeFrames(payloads: seq<ByteString>, n: nat): (k: nat)
    ensures k <= |payloads|
  {
    if payloads == [] || n < |Frame(payloads[0])| then 0
    else 1 + WholeFrames(payloads[1..], n - |Frame(payloads[0])|)
  }

  lemma {:induction false} WholeFramesIsMaximal(payloads: seq<ByteString>, n: nat)
    ensures var k := WholeFrames(payloads, n);
            && |Encode(payloads[..k])| <= n
            && (k < |payloads| ==> n < |Encode(payloads[..k + 1])|)
  {
    if payloads != [] && n >= |Frame(payloads[0])| {
      var rest := payloads[1..];
      WholeFramesIsMaximal(rest, n - |Frame(payloads[0])|);
      var k := WholeFrames(rest, n - |Frame(payloads[0])|);
      assert payloads[..k + 1][1..] == rest[..k];
      if k < |rest| {
        assert payloads[..k + 2][1..] == rest[..k + 1];
      }
    } else if payloads != [] {
      assert payloads[..1][1..] == [];
      assert Encode(payloads[..1]) == Frame(payloads[0]) + Encode([]);
    }
  }

  lemma DecodeFirst(payload: ByteString, tail: ByteString)
    requires InRange(payload)
    ensures DecodeAll(Frame(payload) + tail) == [payload] + DecodeAll(tail)
  {
    DecodeFrame(payload, tail);
  }

  lemma PrependToPrefix(payloads: seq<ByteString>, k: nat)
    requires k < |payloads|
    ensures [payloads[0]] + payloads[1..][..k] == payloads[..k + 1]
  {
  }

  lemma CutEncoding(payloads: seq<ByteString>, n: nat)
    requires payloads != [] && n <= |Encode(payloads)|
    ensures var size := |Frame(payloads[0])|;
            Encode(payloads)[..n] == if n < size then Frame(payloads[0])[..n]
                                     else Frame(payloads[0]) + Encode(payloads[1..])[..n - size]
  {
  }

  lemma TornFrameYieldsNothing(payload: ByteString, n: nat)
    requires InRange(payload) && n < |Frame(payload)|
    ensures DecodeAll(Frame(payload)[..n]) == []
  {
    TornFrameIsNotDecoded(payload, n);
  }

  /** A stream cut anywhere yields exactly the payloads whose frames were complete. */
  lemma {:induction false} TruncatedStreamYieldsWholeFrames(payloads: seq<ByteString>, n: nat)
    requires AllInRange(payloads) && n <= |Encode(payloads)|
    ensures DecodeAll(Encode(payloads)[..n]) == payloads[..WholeFrames(payloads, n)]
  {
    if payloads == [] {
      assert Encode(payloads)[..n] == [];
    } else {
      CutEncoding(payloads, n);
      var stream, size := Encode(payloads)[..n], |Frame(payloads[0])|;
      if n < size {
        TornFrameYieldsNothing(payloads[0], n);
        assert DecodeAll(stream) == [];
      } else {
        var tail := Encode(payloads[1..])[..n - size];
        var k := WholeFrames(payloads[1..], n - size);
        TruncatedStreamYieldsWholeFrames(payloads[1..], n - size);
        DecodeFirst(payloads[0], tail);
        assert DecodeAll(stream) == [payloads[0]] + DecodeAll(tail);
        PrependToPrefix(payloads, k);
        assert DecodeAll(stream) == payloads[..k + 1];
      }
    }
  }

  /** Reading back a whole stream of frames gives exactly the payloads written. */
  lemma {:induction false} StreamRoundTrip(payloads: seq<ByteString>)
    requires AllInRange(payloads)
    ensures DecodeAll(Encode(payloads)) == payloads
  {
    var n := |Encode(payloads)|;
    assert Encode(payloads)[..n] == Encode(payloads);
    TruncatedStreamYieldsWholeFrames(payloads, n);
    WholeFramesIsMaximal(payloads, n);
    EncodePrefixIsShorter(payloads, WholeFrames(payloads, n));
  }

  lemma {:induction false} EncodePrefixIsShorter(payloads: seq<ByteString>, k: nat)
    requires k <= |payloads|
    ensures |Encode(payloads[..k])| <= |Encode(payloads)|
    ensures k < |payloads| ==> |Encode(payloads[..k + 1])| <= |Encode(payloads)|
    ensures payloads[..k] == payloads || k < |payloads|
  {
    if k > 0 {
      assert payloads[..k][1..] == payloads[1..][..k - 1];
      if k < |payloads| {
        assert payloads[..k + 1][1..] == payloads[1..][..k];
      }
      EncodePrefixIsShorter(payloads[1..], k - 1);
    } else if payloads != [] {
      assert payloads[..1][1..] == [];
      assert Encode(payloads[..1]) == Frame(payloads[0]) + Encode([]);
    }
  }

  // ------------------------------------------------------------------ a list of frames through a pipe

  lemma {:induction false} EncodeConcat(a: seq<ByteString>, b: seq<ByteString>)
    ensures Encode(a + b) == Encode(a) + Encode(b)
  {
    if a == [] {
      assert a + b == b;
    } else {
      assert (a + b)[0] == a[0] && (a + b)[1..] == a[1..] + b;
      EncodeConcat(a[1..], b);
    }
  }

  lemma EncodeNext(payloads: seq<ByteString>, i: nat)
    requires i < |payloads|
    ensures Encode(payloads[..i + 1]) == Encode(payloads[..i]) + Frame(payloads[i])
  {
    assert payloads[..i + 1] == payloads[..i] + [payloads[i]];
    EncodeConcat(payloads[..i], [payloads[i]]);
    assert Encode([payloads[i]]) == Frame(payloads[i]) + Encode([]);
  }

  /** A cut inside the frame of payload i. */
  lemma CutBetween(payloads: seq<ByteString>, i: nat, n: nat)
    requires i < |payloads|
    requires |Encode(payloads[..i])| <= n < |Encode(payloads[..i])| + |Frame(payloads[i])|
    ensures n < |Encode(payloads)|
    ensures Encode(payloads)[..n] == Encode(payloads[..i]) + Frame(payloads[i])[..n - |Encode(payloads[..i])|]
  {
    EncodeNext(payloads, i);
    assert payloads == payloads[..i + 1] + payloads[i + 1..];
    EncodeConcat(payloads[..i + 1], payloads[i + 1..]);
  }

  lemma {:induction false} AllFramesFit(payloads: seq<ByteString>, n: nat)
    requires |Encode(payloads)| <= n
    ensures WholeFrames(payloads, n) == |payloads|
  {
    if payloads != [] {
      AllFramesFit(payloads[1..], n - |Frame(payloads[0])|);
    }
  }

  /**
   * Frames written one after the other into a pipe that takes so many bytes, however it splits the writes and the
   * reads, and then read one after the other: what arrives is what was in range and whole, up to the first payload
   * that is not an object.
   */
  method Exchange(payloads: seq<ByteString>, budget: nat, isObject: ByteString -> bool)
    returns (received: seq<ByteString>)
    ensures var sendable := Sendable(payloads);
            received == TakeWhile(isObject, sendable[..WholeFrames(sendable, budget)])
  {
    var pipe := new Pipe([], budget);
    pipe.WriteFrames(payloads);
    ghost var sendable := Sendable(payloads);
    ghost var n := Min(|Encode(sendable)|, budget);
    TakeWhileQualifies(p => InRange(p), payloads);
    assert forall i :: 0 <= i < |sendable| ==> sendable[i] in sendable;
    assert pipe.wire == Encode(sendable)[..n];
    TruncatedStreamYieldsWholeFrames(sendable, n);
    if n < budget {
      AllFramesFit(sendable, n);
      AllFramesFit(sendable, budget);
    }
    received := pipe.ReadFrames(isObject);
  }
}
