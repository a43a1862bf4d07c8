/** The canonical text form of a UUID (section 3 of RFC 4122): 32 lowercase hex
    digits in groups of 8-4-4-4-12, as Python's `str(uuid.UUID(bytes=b))`
    writes it, its inverse, and the version-4 stamping that `uuid.uuid4()`
    applies to 16 random bytes (section 4.4 of RFC 4122). */
module Uuid {
  import opened Common

  type Bytes16 = b: seq<Byte> | |b| == 16 witness seq(16, _ => 0)

  const HexDigits: string := "0123456789abcdef"

  predicate IsHexDigit(c: char) {
    '0' <= c <= '9' || 'a' <= c <= 'f'
  }

  predicate IsHyphenPosition(i: int) {
    i == 8 || i == 13 || i == 18 || i == 23
  }

  /** A canonical UUID string: 36 characters, hyphens at 8, 13, 18 and 23,
      lowercase hex digits everywhere else. */
  predicate WellFormed(s: string) {
    |s| == 36 && forall i :: 0 <= i < 36 ==> if IsHyphenPosition(i) then s[i] == '-' else IsHexDigit(s[i])
  }

  function DigitValue(c: char): (v: nat)
    requires IsHexDigit(c)
    ensures v < 16 && HexDigits[v] == c
  {
    if c <= '9' then c as int - '0' as int else c as int - 'a' as int + 10
  }

  lemma DigitValueOfDigit(v: nat)
    requires v < 16
    ensures IsHexDigit(HexDigits[v]) && DigitValue(HexDigits[v]) == v
  {
  }

  /** Two hex digits per byte, most significant first; for 16 bytes this is
      `'%032x' % int` of the big-endian 128-bit value. */
  function Hex(b: seq<Byte>): (h: string)
    ensures |h| == 2 * |b|
    ensures forall i :: 0 <= i < |h| ==> IsHexDigit(h[i])
  {
    seq(2 * |b|, i requires 0 <= i < 2 * |b| =>
      if i % 2 == 0 then HexDigits[b[i / 2] / 16] else HexDigits[b[i / 2] % 16])
  }

  /** A byte is its two hex digits' values combined. */
  lemma SplitByte(x: int, hi: nat, lo: nat)
    requires hi < 16 && lo < 16 && x == hi * 16 + lo
    ensures x / 16 == hi && x % 16 == lo
  {
  }

  /** Reads back the bytes of a string of hex digit pairs. */
  function Unhex(h: string): (b: seq<Byte>)
    requires |h| % 2 == 0 && forall i :: 0 <= i < |h| ==> IsHexDigit(h[i])
    ensures |b| == |h| / 2
  {
    seq(|h| / 2, k requires 0 <= k < |h| / 2 => DigitValue(h[2 * k]) * 16 + DigitValue(h[2 * k + 1]))
  }

  /** Inserts the four hyphens into 32 hex digits. */
  function Hyphenate(h: string): string
    requires |h| == 32
  {
    h[..8] + "-" + h[8..12] + "-" + h[12..16] + "-" + h[16..20] + "-" + h[20..]
  }

  /** Removes the four hyphens of a 36-character UUID string. */
  function Unhyphenate(s: string): string
    requires |s| == 36
  {
    s[..8] + s[9..13] + s[14..18] + s[19..23] + s[24..]
  }

  /** The character of the 36-character form at each position: a hyphen, or
      the hex digit of `h` it comes from. */
  lemma HyphenateAt(h: string)
    requires |h| == 32
    ensures |Hyphenate(h)| == 36
    ensures forall i :: 0 <= i < 8 ==> Hyphenate(h)[i] == h[i]
    ensures forall i :: 9 <= i < 13 ==> Hyphenate(h)[i] == h[i - 1]
    ensures forall i :: 14 <= i < 18 ==> Hyphenate(h)[i] == h[i - 2]
    ensures forall i :: 19 <= i < 23 ==> Hyphenate(h)[i] == h[i - 3]
    ensures forall i :: 24 <= i < 36 ==> Hyphenate(h)[i] == h[i - 4]
    ensures forall i :: 0 <= i < 36 && IsHyphenPosition(i) ==> Hyphenate(h)[i] == '-'
  {
  }

  /** The character of the 32-digit form at each position: the one of `s`
      it comes from once the hyphens before it are skipped. */
  lemma UnhyphenateAt(s: string)
    requires |s| == 36
    ensures |Unhyphenate(s)| == 32
    ensures forall i :: 0 <= i < 8 ==> Unhyphenate(s)[i] == s[i]
    ensures forall i :: 8 <= i < 12 ==> Unhyphenate(s)[i] == s[i + 1]
    ensures forall i :: 12 <= i < 16 ==> Unhyphenate(s)[i] == s[i + 2]
    ensures forall i :: 16 <= i < 20 ==> Unhyphenate(s)[i] == s[i + 3]
    ensures forall i :: 20 <= i < 32 ==> Unhyphenate(s)[i] == s[i + 4]
  {
  }

  /** `str(uuid.UUID(bytes=b))`. */
  function Render(b: Bytes16): (s: string)
    ensures WellFormed(s)
  {
    var h := Hex(b);
    HyphenateAt(h);
    Hyphenate(h)
  }

  /** `uuid.UUID(s).bytes` for a canonical string. */
  function Parse(s: string): Bytes16
    requires WellFormed(s)
  {
    UnhyphenateAt(s);
    Unhex(Unhyphenate(s))
  }

  /** The two hex digits that stand for byte `k`. */
  lemma HexOfByte(b: seq<Byte>, k: nat)
    requires k < |b|
    ensures Hex(b)[2 * k] == HexDigits[b[k] / 16] && Hex(b)[2 * k + 1] == HexDigits[b[k] % 16]
  {
    assert (2 * k) / 2 == k && (2 * k) % 2 == 0;
    assert (2 * k + 1) / 2 == k && (2 * k + 1) % 2 == 1;
  }

  /** A byte read back from its two hex digits. */
  lemma ByteOfDigits(x: Byte)
    ensures DigitValue(HexDigits[x / 16]) * 16 + DigitValue(HexDigits[x % 16]) == x
  {
    DigitValueOfDigit(x / 16);
    DigitValueOfDigit(x % 16);
  }

  /** One byte read back from its hex form. */
  lemma UnhexHexAt(b: seq<Byte>, k: nat)
    requires k < |b|
    ensures |Unhex(Hex(b))| == |b| && Unhex(Hex(b))[k] == b[k]
  {
    HexOfByte(b, k);
    ByteOfDigits(b[k]);
  }

  lemma UnhexHex(b: seq<Byte>)
    ensures Unhex(Hex(b)) == b
  {
    assert |Unhex(Hex(b))| == (2 * |b|) / 2 == |b|;
    forall k | 0 <= k < |b|
      ensures Unhex(Hex(b))[k] == b[k]
    {
      UnhexHexAt(b, k);
    }
  }

  /** One digit of the hex form of what `Unhex` read is the digit it read. */
  lemma HexUnhexAt(h: string, i: nat)
    requires |h| % 2 == 0 && forall i :: 0 <= i < |h| ==> IsHexDigit(h[i])
    requires i < |h|
    ensures Hex(Unhex(h))[i] == h[i]
  {
    var k := i / 2;
    var b := Unhex(h);
    var x := b[k];
    assert x == DigitValue(h[2 * k]) * 16 + DigitValue(h[2 * k + 1]);
    DigitsOfByte(h[2 * k], h[2 * k + 1], x);
    HexOfByte(b, k);
    if i % 2 == 0 {
      assert i == 2 * k;
      assert Hex(b)[i] == HexDigits[x / 16];
    } else {
      assert i == 2 * k + 1;
      assert Hex(b)[i] == HexDigits[x % 16];
    }
  }

  /** Two hex digits combined into a byte give those digits back. */
  lemma DigitsOfByte(c1: char, c2: char, x: int)
    requires IsHexDigit(c1) && IsHexDigit(c2) && x == DigitValue(c1) * 16 + DigitValue(c2)
    ensures HexDigits[x / 16] == c1 && HexDigits[x % 16] == c2
  {
    var hi, lo := DigitValue(c1), DigitValue(c2);
    SplitByte(x, hi, lo);
  }

  lemma HexUnhex(h: string)
    requires |h| % 2 == 0 && forall i :: 0 <= i < |h| ==> IsHexDigit(h[i])
    ensures Hex(Unhex(h)) == h
  {
    forall i | 0 <= i < |h|
      ensures Hex(Unhex(h))[i] == h[i]
    {
      HexUnhexAt(h, i);
    }
  }

  lemma UnhyphenateHyphenate(h: string)
    requires |h| == 32
    ensures Unhyphenate(Hyphenate(h)) == h
  {
    HyphenateAt(h);
    UnhyphenateAt(Hyphenate(h));
  }

  lemma HyphenateUnhyphenate(s: string)
    requires WellFormed(s)
    ensures Hyphenate(Unhyphenate(s)) == s
  {
    var h := Unhyphenate(s);
    UnhyphenateAt(s);
    HyphenateAt(h);
    assert forall i :: 0 <= i < 36 ==> Hyphenate(h)[i] == s[i];
  }

  /** Parsing undoes rendering: distinct byte strings render differently. */
  lemma ParseRender(b: Bytes16)
    ensures Parse(Render(b)) == b
  {
    UnhyphenateHyphenate(Hex(b));
    UnhexHex(b);
  }

  /** Rendering undoes parsing: every canonical string is the rendering of
      exactly one 16-byte value. */
  lemma RenderParse(s: string)
    requires WellFormed(s)
    ensures Render(Parse(s)) == s
  {
    UnhyphenateAt(s);
    HexUnhex(Unhyphenate(s));
    HyphenateUnhyphenate(s);
  }

  /** `UUID(bytes=random, version=4)`: the version nibble of byte 6 becomes 4
      and the top two bits of byte 8 become the RFC 4122 variant `10`. */
  function AsVersion4(random: Bytes16): (b: Bytes16)
    ensures b[6] / 16 == 4 && b[6] % 16 == random[6] % 16
    ensures b[8] / 64 == 2 && b[8] % 64 == random[8] % 64
    ensures forall i :: 0 <= i < 16 && i != 6 && i != 8 ==> b[i] == random[i]
  {
    random[6 := 0x40 + random[6] % 16][8 := 0x80 + random[8] % 64]
  }

  /** A version-4 UUID reads `4` at position 14 and one of `8 9 a b` at 19. */
  lemma Version4Shape(random: Bytes16)
    ensures Render(AsVersion4(random))[14] == '4'
    ensures Render(AsVersion4(random))[19] in "89ab"
  {
    var b := AsVersion4(random);
    var h := Hex(b);
    HyphenateAt(h);
    assert Render(b)[14] == h[12] == HexDigits[b[6] / 16];
    assert Render(b)[19] == h[16] == HexDigits[b[8] / 16];
  }
}
