/**
 * FNV-1a, 64 bits (section 2 of draft-eastlake-fnv): the checksum of the session store, and the chunked
 * file hash of the command line. Words are naturals below 2^64.
 */
module Fnv1a {
  import opened Bytes
  import opened WordArithmetic
  import opened Wrappers

  const OFFSET_BASIS: Word64 := 14695981039346656037
  const PRIME: nat := 1099511628211
  /** PRIME * PRIME_INVERSE == 1 modulo 2^64. */
  const PRIME_INVERSE: nat := 14886173955864302971
  const CHUNK: nat := 65536

  /** Bitwise exclusive or. */
  function Xor(x: nat, y: nat): nat
    decreases x + y
  {
    if x == 0 && y == 0 then 0 else 2 * Xor(x / 2, y / 2) + (x + y) % 2
  }

  lemma {:induction false} XorBound(x: nat, y: nat, n: nat)
    requires x < Pow2(n) && y < Pow2(n)
    ensures Xor(x, y) < Pow2(n)
  {
    if n > 0 && (x > 0 || y > 0) {
      XorBound(x / 2, y / 2, n - 1);
    }
  }

  lemma XorUnfolds(x: nat, y: nat)
    ensures Xor(x, y) == 2 * Xor(x / 2, y / 2) + (x + y) % 2
    ensures Xor(x, y) / 2 == Xor(x / 2, y / 2) && Xor(x, y) % 2 == (x + y) % 2
  {
  }

  /** Binary digit k of a number. */
  function Bit(x: nat, k: nat): nat
    decreases k
  {
    if k == 0 then x % 2 else Bit(x / 2, k - 1)
  }

  /** Every bit is set exactly if it is set in one of the two. */
  lemma {:induction false} XorBits(x: nat, y: nat, k: nat)
    ensures Bit(Xor(x, y), k) == if Bit(x, k) != Bit(y, k) then 1 else 0
    decreases k
  {
    XorUnfolds(x, y);
    if k > 0 {
      XorBits(x / 2, y / 2, k - 1);
    }
  }

  lemma Parity(x: nat, y: nat, z: nat)
    requires z % 2 == (x + y) % 2
    ensures 2 * (x / 2) + (z + y) % 2 == x
  {
  }

  lemma {:induction false} XorTwice(x: nat, y: nat)
    ensures Xor(Xor(x, y), y) == x
    decreases x + y
  {
    if x > 0 || y > 0 {
      var z := Xor(x, y);
      XorTwice(x / 2, y / 2);
      XorUnfolds(x, y);
      XorUnfolds(z, y);
      assert Xor(z / 2, y / 2) == x / 2;
      Parity(x, y, z);
    }
  }

  lemma {:induction false} XorCommutes(x: nat, y: nat)
    ensures Xor(x, y) == Xor(y, x)
    decreases x + y
  {
    if x > 0 || y > 0 {
      XorCommutes(x / 2, y / 2);
    }
  }

  function Mix(h: Word64, b: Byte): Word64
  {
    WordBound(h, b);
    Xor(h, b)
  }

  lemma WordBound(x: Word64, y: Word64)
    ensures Xor(x, y) < WORD
  {
    WordIsPow2();
    XorBound(x, y, 64);
  }

  function TimesPrime(h: Word64): Word64 { (h * PRIME) % WORD }

  function Absorb(h: Word64, b: Byte): Word64 { TimesPrime(Mix(h, b)) }

  function Hash(h: Word64, payload: ByteString): Word64
    decreases |payload|
  {
    if payload == [] then h else Hash(Absorb(h, payload[0]), payload[1..])
  }

  // ------------------------------------------------------------------ every step is injective

  /** Multiplication by the prime can be undone modulo 2^64. */
  lemma TimesPrimeIsInvertible(x: Word64)
    ensures (TimesPrime(x) * PRIME_INVERSE) % WORD == x
  {
    var q := (x * PRIME) / WORD;
    var k := (PRIME * PRIME_INVERSE) / WORD;
    assert PRIME * PRIME_INVERSE == k * WORD + 1;
    assert TimesPrime(x) == x * PRIME - q * WORD;
    assert TimesPrime(x) * PRIME_INVERSE == (x * k - q * PRIME_INVERSE) * WORD + x;
  }

  /** Two states that meet after the same byte were the same state. */
  lemma AbsorbSeparatesStates(g: Word64, h: Word64, b: Byte)
    ensures Absorb(g, b) == Absorb(h, b) ==> g == h
  {
    TimesPrimeIsInvertible(Mix(g, b));
    TimesPrimeIsInvertible(Mix(h, b));
    XorTwice(g, b);
    XorTwice(h, b);
  }

  /** Different bytes lead the same state to different states. */
  lemma AbsorbSeparatesBytes(h: Word64, a: Byte, b: Byte)
    ensures Absorb(h, a) == Absorb(h, b) ==> a == b
  {
    TimesPrimeIsInvertible(Mix(h, a));
    TimesPrimeIsInvertible(Mix(h, b));
    XorCommutes(h, a);
    XorCommutes(h, b);
    XorTwice(a, h);
    XorTwice(b, h);
  }

  // ------------------------------------------------------------------ whole payloads

  lemma {:induction false} HashConcat(h: Word64, a: ByteString, b: ByteString)
    ensures Hash(h, a + b) == Hash(Hash(h, a), b)
    decreases |a|
  {
    if a == [] {
      assert a + b == b;
    } else {
      assert (a + b)[0] == a[0] && (a + b)[1..] == a[1..] + b;
      HashConcat(Absorb(h, a[0]), a[1..], b);
    }
  }

  lemma HashAppend(h: Word64, payload: ByteString, k: nat)
    requires k < |payload|
    ensures Hash(h, payload[..k + 1]) == Absorb(Hash(h, payload[..k]), payload[k])
  {
    assert payload[..k + 1] == payload[..k] + [payload[k]];
    HashConcat(h, payload[..k], [payload[k]]);
    assert [payload[k]][1..] == [];
  }

  /** A common continuation never merges two different states. */
  lemma {:induction false} HashSeparatesStates(g: Word64, h: Word64, payload: ByteString)
    ensures Hash(g, payload) == Hash(h, payload) <==> g == h
    decreases |payload|
  {
    if payload != [] {
      HashSeparatesStates(Absorb(g, payload[0]), Absorb(h, payload[0]), payload[1..]);
      AbsorbSeparatesStates(g, h, payload[0]);
    }
  }

  // ------------------------------------------------------------------ the printed form

  const DIGITS: string := "0123456789abcdef"

  /** The last `width` hexadecimal digits, most significant first, padded with zeros. */
  function Hex(v: nat, width: nat): (text: string)
    ensures |text| == width
  {
    if width == 0 then "" else Hex(v / 16, width - 1) + [DIGITS[v % 16]]
  }

  lemma DigitsDiffer(a: nat, b: nat)
    requires a < 16 && b < 16 && DIGITS[a] == DIGITS[b]
    ensures a == b
  {
  }

  lemma {:induction false} HexIsInjective(v: nat, w: nat, width: nat)
    requires v < Pow2(4 * width) && w < Pow2(4 * width)
    ensures Hex(v, width) == Hex(w, width) <==> v == w
  {
    if width > 0 {
      Pow2By4(4 * (width - 1));
      HexIsInjective(v / 16, w / 16, width - 1);
      var a, b := Hex(v, width), Hex(w, width);
      assert a[..width - 1] == Hex(v / 16, width - 1) && b[..width - 1] == Hex(w / 16, width - 1);
      if a == b {
        assert a[width - 1] == DIGITS[v % 16] && b[width - 1] == DIGITS[w % 16];
        DigitsDiffer(v % 16, w % 16);
      }
    }
  }

  /** The value of a text of hexadecimal digits, the most significant first. */
  function ValueOf(text: string): int {
    if text == "" then 0
    else
      var digit := text[|text| - 1];
      16 * ValueOf(text[..|text| - 1])
      + if '0' <= digit <= '9' then digit as int - '0' as int else digit as int - 'a' as int + 10
  }

  lemma DigitValue(n: nat)
    requires n < 16
    ensures ValueOf([DIGITS[n]]) == n
    ensures '0' <= DIGITS[n] <= '9' || 'a' <= DIGITS[n] <= 'f'
  {
    assert [DIGITS[n]][..0] == "";
  }

  /** The printed digits, all of them decimal or lower-case, say the value. */
  lemma {:induction false} HexReadsBack(v: nat, width: nat)
    requires v < Pow2(4 * width)
    ensures ValueOf(Hex(v, width)) == v
    ensures forall i :: 0 <= i < width ==> '0' <= Hex(v, width)[i] <= '9' || 'a' <= Hex(v, width)[i] <= 'f'
  {
    if width > 0 {
      Pow2By4(4 * (width - 1));
      HexReadsBack(v / 16, width - 1);
      DigitValue(v % 16);
      assert Hex(v, width)[..width - 1] == Hex(v / 16, width - 1);
      assert [DIGITS[v % 16]][..0] == "";
    }
  }

  function ChecksumText(payload: ByteString): string { Hex(Hash(OFFSET_BASIS, payload), 16) }

  lemma {:induction false} XorZero(x: nat)
    ensures Xor(x, 0) == x
  {
    if x > 0 {
      XorZero(x / 2);
    }
  }

  lemma BasisXorA()
    ensures Xor(0xcbf29ce484222325, 97) == 0xcbf29ce484222344
  {
    XorZero(0xcbf29ce484222325 / 256);
    XorUnfolds(0xcbf29ce484222325 / 128, 0);
    XorUnfolds(0xcbf29ce484222325 / 64, 1);
    XorUnfolds(0xcbf29ce484222325 / 32, 3);
    XorUnfolds(0xcbf29ce484222325 / 16, 6);
    XorUnfolds(0xcbf29ce484222325 / 8, 12);
    XorUnfolds(0xcbf29ce484222325 / 4, 24);
    XorUnfolds(0xcbf29ce484222325 / 2, 48);
    XorUnfolds(0xcbf29ce484222325, 97);
  }

  lemma TimesPrimeOfBasisXorA()
    ensures TimesPrime(0xcbf29ce484222344) == 0xaf63dc4c8601ec8c
  {
  }

  /** The published values of the empty text and of "a". */
  lemma KnownAnswers()
    ensures Hash(OFFSET_BASIS, []) == 0xcbf29ce484222325
    ensures Hash(OFFSET_BASIS, [97]) == 0xaf63dc4c8601ec8c
  {
    BasisXorA();
    TimesPrimeOfBasisXorA();
    assert [97 as int][1..] == [];
  }

  /** The text of a checksum is the hash in sixteen hexadecimal digits. */
  lemma ChecksumTextExactly(payload: ByteString)
    ensures |ChecksumText(payload)| == 16 && ValueOf(ChecksumText(payload)) == Hash(0xcbf29ce484222325, payload)
    ensures forall i :: 0 <= i < 16 ==>
              '0' <= ChecksumText(payload)[i] <= '9' || 'a' <= ChecksumText(payload)[i] <= 'f'
  {
    WordIsPow2();
    HexReadsBack(Hash(OFFSET_BASIS, payload), 16);
  }

  lemma TextsAgree(g: Word64, h: Word64)
    ensures Hex(g, 16) == Hex(h, 16) <==> g == h
  {
    WordIsPow2();
    HexIsInjective(g, h, 16);
  }

  /** The checksum detects every change confined to one byte, whatever surrounds it. */
  lemma SingleByteChangeIsDetected(payload: ByteString, i: nat, b: Byte)
    requires i < |payload|
    ensures ChecksumText(payload[i := b]) == ChecksumText(payload) <==> b == payload[i]
  {
    var changed := payload[i := b];
    var suffix := payload[i + 1..];
    assert payload[..i + 1] + suffix == payload && changed[..i + 1] + suffix == changed;
    assert changed[..i] == payload[..i];
    HashConcat(OFFSET_BASIS, payload[..i + 1], suffix);
    HashConcat(OFFSET_BASIS, changed[..i + 1], suffix);
    HashAppend(OFFSET_BASIS, payload, i);
    HashAppend(OFFSET_BASIS, changed, i);
    var h := Hash(OFFSET_BASIS, payload[..i]);
    HashSeparatesStates(Absorb(h, payload[i]), Absorb(h, b), suffix);
    AbsorbSeparatesBytes(h, payload[i], b);
    TextsAgree(Hash(OFFSET_BASIS, payload), Hash(OFFSET_BASIS, changed));
  }

  // ------------------------------------------------------------------ the two loops of the source

  method Checksum(payload: ByteString) returns (text: string)
    ensures text == ChecksumText(payload)
  {
    var value: Word64 := OFFSET_BASIS;
    for k := 0 to |payload|
      invariant value == Hash(OFFSET_BASIS, payload[..k])
    {
      HashAppend(OFFSET_BASIS, payload, k);
      value := Mix(value, payload[k]);
      value := TimesPrime(value);
    }
    assert payload[..|payload|] == payload;
    text := Hex(value, 16);
  }

  /**
   * Hashing a file 64 KiB at a time through one reused buffer; a short read is the last one. A file that cannot
   * be opened is None.
   */
  method HashFile(file: Option<ByteString>) returns (text: string)
    ensures text == if file.Some? then "fnv1a64:" + ChecksumText(file.value) else "unreadable"
  {
    if file.None? {
      return "unreadable";
    }
    var stream := file.value;
    var hash: Word64 := OFFSET_BASIS;
    var buffer := new Byte[CHUNK];
    var position := 0;
    var good := true;
    while good
      invariant 0 <= position <= |stream|
      invariant hash == Hash(OFFSET_BASIS, stream[..position])
      invariant !good ==> position == |stream|
      decreases |stream| - position, good
    {
      var read := if |stream| - position < CHUNK then |stream| - position else CHUNK;
      forall k | 0 <= k < read {
        buffer[k] := stream[position + k];
      }
      good := read == CHUNK;
      for k := 0 to read
        invariant hash == Hash(OFFSET_BASIS, stream[..position + k])
        invariant forall j :: 0 <= j < read ==> buffer[j] == stream[position + j]
      {
        HashAppend(OFFSET_BASIS, stream, position + k);
        hash := Mix(hash, buffer[k]);
        hash := TimesPrime(hash);
      }
      position := position + read;
    }
    assert stream[..|stream|] == stream;
    text := "fnv1a64:" + Hex(hash, 16);
  }
}
