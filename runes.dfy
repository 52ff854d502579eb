/**
 * Runes and their encodings. A Go string is a byte sequence; the document
 * model only ever holds valid UTF-8, so text is modelled here as the decoded
 * sequence of Unicode scalar values, and its byte form is given by Encode.
 */
module Runes {

  /** A Unicode scalar value: a code point that is not a surrogate. */
  newtype Rune = x: int | 0 <= x < 0xD800 || 0xE000 <= x < 0x11_0000

  newtype Byte = x: int | 0 <= x < 0x100

  type Text = seq<Rune>

  const Tab: Rune := 9
  const Newline: Rune := 10
  const CarriageReturn: Rune := 13
  const Space: Rune := 32
  const Slash: Rune := 47

  /** Number of bytes in the UTF-8 encoding of r (section 3 of RFC 3629). */
  function RuneLen(r: Rune): (n: nat)
    ensures 1 <= n <= 4
  {
    if r < 0x80 then 1
    else if r < 0x800 then 2
    else if r < 0x1_0000 then 3
    else 4
  }

  /** Number of UTF-16 code units of r: two (a surrogate pair) above the BMP (section 2.1 of RFC 2781). */
  function Utf16Units(r: Rune): (n: nat)
    ensures n == 1 || n == 2
  {
    if r < 0x1_0000 then 1 else 2
  }

  /** UTF-8 encoding of one scalar value, as laid out in section 3 of RFC 3629. */
  function EncodeRune(r: Rune): (b: seq<Byte>)
    ensures |b| == RuneLen(r)
  {
    var x := r as int;
    if x < 0x80 then
      [x as Byte]
    else if x < 0x800 then
      [(0xC0 + x / 0x40) as Byte, (0x80 + x % 0x40) as Byte]
    else if x < 0x1_0000 then
      [(0xE0 + x / 0x1000) as Byte, (0x80 + (x / 0x40) % 0x40) as Byte, (0x80 + x % 0x40) as Byte]
    else
      [(0xF0 + x / 0x4_0000) as Byte, (0x80 + (x / 0x1000) % 0x40) as Byte,
       (0x80 + (x / 0x40) % 0x40) as Byte, (0x80 + x % 0x40) as Byte]
  }

  /** The UTF-8 byte form of a text. */
  function Encode(s: Text): seq<Byte>
  {
    if s == [] then [] else Encode(s[..|s| - 1]) + EncodeRune(s[|s| - 1])
  }

  /** Length in bytes of the UTF-8 form of s. */
  function Utf8Len(s: Text): nat
  {
    if s == [] then 0 else Utf8Len(s[..|s| - 1]) + RuneLen(s[|s| - 1])
  }

  /** Number of UTF-16 code units of s. */
  function Utf16Len(s: Text): nat
  {
    if s == [] then 0 else Utf16Len(s[..|s| - 1]) + Utf16Units(s[|s| - 1])
  }

  /** unicode.IsSpace: the Latin-1 spaces, then the Unicode White_Space property. */
  predicate IsSpace(r: Rune)
  {
    if r <= 0xFF then
      r == 9 || r == 10 || r == 11 || r == 12 || r == 13 || r == 32 || r == 0x85 || r == 0xA0
    else
      r == 0x1680 || (0x2000 <= r <= 0x200A) || r == 0x2028 || r == 0x2029
      || r == 0x202F || r == 0x205F || r == 0x3000
  }

  lemma {:induction false} EncodeLength(s: Text)
    ensures |Encode(s)| == Utf8Len(s)
  {
    if s != [] {
      EncodeLength(s[..|s| - 1]);
    }
  }

  /** Encoding is a homomorphism: the bytes of a + b are the bytes of a followed by those of b. */
  lemma {:induction false} EncodeAppend(a: Text, b: Text)
    ensures Encode(a + b) == Encode(a) + Encode(b)
    decreases |b|
  {
    if b == [] {
      assert a + b == a;
    } else {
      var b' := b[..|b| - 1];
      assert (a + b)[..|a + b| - 1] == a + b';
      EncodeAppend(a, b');
    }
  }

  lemma {:induction false} Utf8LenAppend(a: Text, b: Text)
    ensures Utf8Len(a + b) == Utf8Len(a) + Utf8Len(b)
    decreases |b|
  {
    if b == [] {
      assert a + b == a;
    } else {
      var b' := b[..|b| - 1];
      assert (a + b)[..|a + b| - 1] == a + b';
      Utf8LenAppend(a, b');
    }
  }

  /** A prefix never has more bytes than the text; each further rune adds at least one. */
  lemma {:induction false} Utf8LenPrefix(s: Text, i: nat, j: nat)
    requires i <= j <= |s|
    ensures Utf8Len(s[..i]) + (j - i) <= Utf8Len(s[..j])
    decreases j
  {
    if i < j {
      assert s[..j][..j - 1] == s[..j - 1];
      Utf8LenPrefix(s, i, j - 1);
    }
  }

  lemma {:induction false} Utf16LenPrefix(s: Text, i: nat, j: nat)
    requires i <= j <= |s|
    ensures Utf16Len(s[..i]) + (j - i) <= Utf16Len(s[..j])
    decreases j
  {
    if i < j {
      assert s[..j][..j - 1] == s[..j - 1];
      Utf16LenPrefix(s, i, j - 1);
    }
  }

  /** The bytes of the rune at index i sit at byte offset Utf8Len(s[..i]) of the encoding. */
  lemma EncodeAt(s: Text, i: nat)
    requires i < |s|
    ensures |Encode(s[..i])| == Utf8Len(s[..i])
    ensures Utf8Len(s[..i]) <= Utf8Len(s[..i + 1]) <= |Encode(s)|
    ensures Encode(s)[Utf8Len(s[..i])..Utf8Len(s[..i + 1])] == EncodeRune(s[i])
  {
    EncodeLength(s[..i]);
    assert s == s[..i] + [s[i]] + s[i + 1..];
    EncodeAppend(s[..i] + [s[i]], s[i + 1..]);
    assert s[..i + 1] == s[..i] + [s[i]];
    assert s[..i + 1][..i] == s[..i];
    EncodeLength(s[..i + 1]);
    EncodeLength(s);
    Utf8LenPrefix(s, i + 1, |s|);
    assert s[..|s|] == s;
  }
}
