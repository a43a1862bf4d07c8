/** Base64 with the URL- and filename-safe alphabet of section 5 of RFC 4648,
    decoded the way Python's `base64.urlsafe_b64decode` does it (the
    non-strict `binascii.a2b_base64`) for input made of alphabet symbols
    followed by `=` padding, together with an unpadded reference encoder. */
module Base64Url {
  import opened Common
  import Strings

  type Sextet = x: int | 0 <= x < 64

  predicate IsSymbol(c: char) {
    'A' <= c <= 'Z' || 'a' <= c <= 'z' || '0' <= c <= '9' || c == '-' || c == '_'
  }

  predicate AllSymbols(s: string) {
    forall i :: 0 <= i < |s| ==> IsSymbol(s[i])
  }

  predicate IsPad(c: char) {
    c == '='
  }

  /** The 6-bit value a symbol stands for (table 2 of RFC 4648, with `-` and `_`). */
  function ValueOf(c: char): Sextet
    requires IsSymbol(c)
  {
    if 'A' <= c <= 'Z' then c as int - 'A' as int
    else if 'a' <= c <= 'z' then c as int - 'a' as int + 26
    else if '0' <= c <= '9' then c as int - '0' as int + 52
    else if c == '-' then 62
    else 63
  }

  /** The symbol for a 6-bit value; `ValueOf` undoes it. */
  function SymbolOf(v: Sextet): (c: char)
    ensures IsSymbol(c) && ValueOf(c) == v
  {
    if v < 26 then ('A' as int + v) as char
    else if v < 52 then ('a' as int + v - 26) as char
    else if v < 62 then ('0' as int + v - 52) as char
    else if v == 62 then '-'
    else '_'
  }

  /** Number of symbols the unpadded encoding of `n` bytes has. */
  function EncodedLength(n: nat): nat {
    n / 3 * 4 + (if n % 3 == 0 then 0 else n % 3 + 1)
  }

  /** Number of bytes decoded from `n` symbols: three per full quantum, and
      one or two more for a final group of two or three symbols. */
  function DecodedLength(n: nat): nat {
    n / 4 * 3 + (if n % 4 >= 2 then n % 4 - 1 else 0)
  }

  /** The reference encoder: every 3 bytes become 4 symbols; a final 1 or 2
      bytes become 2 or 3 symbols, without padding. */
  function Encode(b: seq<Byte>): (s: string)
    ensures AllSymbols(s)
    ensures |s| == EncodedLength(|b|)
    decreases |b|
  {
    if |b| == 0 then []
    else if |b| == 1 then [SymbolOf(b[0] / 4), SymbolOf(b[0] % 4 * 16)]
    else if |b| == 2 then
      [SymbolOf(b[0] / 4), SymbolOf(b[0] % 4 * 16 + b[1] / 16), SymbolOf(b[1] % 16 * 4)]
    else GroupSymbols(b[0], b[1], b[2]) + Encode(b[3..])
  }

  /** The four symbols of a full group of three bytes. */
  function GroupSymbols(b0: Byte, b1: Byte, b2: Byte): (g: string)
    ensures |g| == 4 && AllSymbols(g)
  {
    [SymbolOf(b0 / 4), SymbolOf(b0 % 4 * 16 + b1 / 16), SymbolOf(b1 % 16 * 4 + b2 / 64), SymbolOf(b2 % 64)]
  }

  /** Decoding of the symbols themselves: 4 symbols give 3 bytes, a final 2 or 3
      symbols give 1 or 2 bytes, and bits left over in the last symbol are
      dropped (the non-strict decoder does not check them). */
  function DecodeSymbols(d: string): (b: seq<Byte>)
    requires AllSymbols(d)
    ensures |b| == DecodedLength(|d|)
    decreases |d|
  {
    if |d| < 2 then []
    else if |d| == 2 then [ValueOf(d[0]) * 4 + ValueOf(d[1]) / 16]
    else if |d| == 3 then
      [ValueOf(d[0]) * 4 + ValueOf(d[1]) / 16, ValueOf(d[1]) % 16 * 16 + ValueOf(d[2]) / 4]
    else
      [ValueOf(d[0]) * 4 + ValueOf(d[1]) / 16, ValueOf(d[1]) % 16 * 16 + ValueOf(d[2]) / 4,
       ValueOf(d[2]) % 4 * 64 + ValueOf(d[3])] + DecodeSymbols(d[4..])
  }

  /** `urlsafe_b64decode(padded)`. When `padded` is alphabet symbols followed by
      `=` characters: a symbol count one more than a multiple of four is an
      error; a final group of 2 or 3 symbols needs at least 2 or 1 `=` after it
      ("Incorrect padding"), and surplus `=` are ignored. Any other input (other
      characters, `=` in the middle) is decided by `other`, which stands for the
      library's handling of it. */
  function DecodePadded(padded: string, other: string -> Option<seq<Byte>>): (r: Option<seq<Byte>>)
    ensures !AllSymbols(Strings.RStrip(padded, IsPad)) ==> r == other(padded)
    ensures var data := Strings.RStrip(padded, IsPad);
            AllSymbols(data) ==>
              && (r.Some? <==> |data| % 4 != 1 && (|data| % 4 == 0 || |padded| - |data| >= 4 - |data| % 4))
              && (r.Some? ==> r.value == DecodeSymbols(data) && |r.value| == DecodedLength(|data|))
  {
    var data := Strings.RStrip(padded, IsPad);
    var pads := |padded| - |data|;
    if !AllSymbols(data) then other(padded)
    else if |data| % 4 == 1 then None
    else if |data| % 4 != 0 && pads < 4 - |data| % 4 then None
    else Some(DecodeSymbols(data))
  }

  /** With enough `=` after the symbols, decoding fails only for a symbol count
      one more than a multiple of four. */
  lemma DecodeWithEnoughPadding(padded: string, data: string, other: string -> Option<seq<Byte>>)
    requires Strings.RStrip(padded, IsPad) == data && AllSymbols(data)
    requires |data| % 4 >= 2 ==> |padded| - |data| >= 4 - |data| % 4
    ensures DecodePadded(padded, other) == if |data| % 4 == 1 then None else Some(DecodeSymbols(data))
  {
  }

  /** Decoding undoes encoding, group by group. */
  lemma GroupRoundTrip(b0: Byte, b1: Byte, b2: Byte)
    ensures (b0 / 4) * 4 + (b0 % 4 * 16 + b1 / 16) / 16 == b0
    ensures (b0 % 4 * 16 + b1 / 16) % 16 * 16 + (b1 % 16 * 4 + b2 / 64) / 4 == b1
    ensures (b1 % 16 * 4 + b2 / 64) % 4 * 64 + b2 % 64 == b2
  {
  }

  /** The four symbols of one group decode to the group's three bytes. */
  lemma DecodeGroup(b0: Byte, b1: Byte, b2: Byte)
    ensures DecodeSymbols(GroupSymbols(b0, b1, b2)) == [b0, b1, b2]
  {
    GroupRoundTrip(b0, b1, b2);
  }

  /** The three symbols of a final two-byte group decode to those bytes. */
  lemma DecodeTwo(b0: Byte, b1: Byte)
    ensures var g := [SymbolOf(b0 / 4), SymbolOf(b0 % 4 * 16 + b1 / 16), SymbolOf(b1 % 16 * 4)];
            AllSymbols(g) && DecodeSymbols(g) == [b0, b1]
  {
    GroupRoundTrip(b0, b1, 0);
  }

  /** The two symbols of a final one-byte group decode to that byte. */
  lemma DecodeOne(b0: Byte)
    ensures var g := [SymbolOf(b0 / 4), SymbolOf(b0 % 4 * 16)];
            AllSymbols(g) && DecodeSymbols(g) == [b0]
  {
    GroupRoundTrip(b0, 0, 0);
  }

  /** Decoding works group by group. */
  lemma DecodeSplit(g: string, d: string)
    requires |g| == 4 && AllSymbols(g) && AllSymbols(d)
    ensures AllSymbols(g + d) && DecodeSymbols(g + d) == DecodeSymbols(g) + DecodeSymbols(d)
  {
    assert (g + d)[..4] == g && (g + d)[4..] == d;
    assert g[4..] == [];
  }

  /** Decoding the encoding of any byte string gives it back. */
  lemma {:induction false} DecodeEncode(b: seq<Byte>)
    ensures DecodeSymbols(Encode(b)) == b
    decreases |b|
  {
    if |b| >= 3 {
      var rest := Encode(b[3..]);
      DecodeEncode(b[3..]);
      EncodeGroup(b);
      DecodeGroupThen(b[0], b[1], b[2], rest, b[3..]);
      FirstThree(b);
    } else if |b| == 2 {
      DecodeTwo(b[0], b[1]);
      assert b == [b[0], b[1]];
    } else if |b| == 1 {
      DecodeOne(b[0]);
      assert b == [b[0]];
    }
  }

  /** A byte string of three bytes or more is its first three followed by the rest. */
  lemma FirstThree(b: seq<Byte>)
    requires |b| >= 3
    ensures [b[0], b[1], b[2]] + b[3..] == b
  {
  }

  /** Three bytes or more are encoded group by group. */
  lemma EncodeGroup(b: seq<Byte>)
    requires |b| >= 3
    ensures Encode(b) == GroupSymbols(b[0], b[1], b[2]) + Encode(b[3..])
  {
  }

  /** A full group followed by more symbols decodes to the group's bytes
      followed by what the rest decodes to. */
  lemma DecodeGroupThen(b0: Byte, b1: Byte, b2: Byte, rest: string, tail: seq<Byte>)
    requires AllSymbols(rest) && DecodeSymbols(rest) == tail
    ensures DecodeSymbols(GroupSymbols(b0, b1, b2) + rest) == [b0, b1, b2] + tail
  {
    DecodeGroup(b0, b1, b2);
    DecodeSplit(GroupSymbols(b0, b1, b2), rest);
  }

  /** A symbol count that is one more than a multiple of four is never produced
      by the encoder, which is why the decoder rejects it. */
  lemma EncodedLengthNotOneModFour(n: nat)
    ensures EncodedLength(n) % 4 != 1
  {
  }
}
