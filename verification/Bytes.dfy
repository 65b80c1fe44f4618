/** Bytes, and the lengths of texts in them. */
module Bytes {
  type Byte = b: nat | b < 256

  type ByteString = seq<Byte>

  /** How many characters of a text are at or above a code point. */
  function Reaching(text: string, codePoint: nat): nat {
    |set i | 0 <= i < |text| && text[i] as int >= codePoint|
  }

  /** The bytes of a text in UTF-8: one for every character, and one more at each of three thresholds. */
  function Utf8Length(text: string): nat {
    |text| + Reaching(text, 0x80) + Reaching(text, 0x800) + Reaching(text, 0x1_0000)
  }

  lemma ReachingAppend(text: string, c: char, codePoint: nat)
    ensures Reaching(text + [c], codePoint) == Reaching(text, codePoint) + if c as int >= codePoint then 1 else 0
  {
    var before := set i | 0 <= i < |text| && text[i] as int >= codePoint;
    var after := set i | 0 <= i < |text + [c]| && (text + [c])[i] as int >= codePoint;
    assert after == before + if c as int >= codePoint then {|text|} else {};
  }

  /** UTF-8 (section 3 of RFC 3629) gives every character a length by its code point, and a text their sum. */
  lemma Utf8LengthExactly(text: string, c: char)
    ensures Utf8Length("") == 0
    ensures Utf8Length(text + [c]) == Utf8Length(text)
              + if c as int <= 0x7F then 1 else if c as int <= 0x7FF then 2 else if c as int <= 0xFFFF then 3 else 4
  {
    ReachingAppend(text, c, 0x80);
    ReachingAppend(text, c, 0x800);
    ReachingAppend(text, c, 0x1_0000);
  }
}
