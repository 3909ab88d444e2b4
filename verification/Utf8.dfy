/**
The UTF-8 the terminal code writes and reads, with masks and shifts as division and
remainder (section 3 of RFC 3629, extended to all 21-bit values). One char is one byte.
*/
module Utf8 {

  const CODE_POINTS: int := 0x200000

  function ByteChar(b: int): (c: char)
    requires 0 <= b < 256
    ensures c as int == b
  {
    b as char
  }

  // The bytes render() writes for a code point.
  function Encode(cp: int): (r: string)
    requires 0 <= cp < CODE_POINTS
    ensures 1 <= |r| <= 4
  {
    if cp < 0x80 then [ByteChar(cp)]
    else if cp < 0x800 then [ByteChar(0xC0 + cp / 64), ByteChar(0x80 + cp % 64)]
    else if cp < 0x10000 then
      [ByteChar(0xE0 + cp / 4096), ByteChar(0x80 + cp / 64 % 64), ByteChar(0x80 + cp % 64)]
    else
      [ByteChar(0xF0 + cp / 262144), ByteChar(0x80 + cp / 4096 % 64),
       ByteChar(0x80 + cp / 64 % 64), ByteChar(0x80 + cp % 64)]
  }

  datatype Decoded = Decoded(cp: int, len: nat)

  // The decoder of write_text at a position: lenient, a space for what it cannot read.
  function DecodeAt(s: string, i: nat): (d: Decoded)
    requires i < |s| && forall k :: 0 <= k < |s| ==> s[k] as int < 256
    ensures 0 <= d.cp < CODE_POINTS && 1 <= d.len && i + d.len <= |s|
  {
    var c := s[i] as int;
    if c < 0x80 then Decoded(c, 1)
    else if 0xC0 <= c < 0xE0 && i + 1 < |s| then Decoded(c % 32 * 64 + s[i + 1] as int % 64, 2)
    else if 0xE0 <= c < 0xF0 && i + 2 < |s| then
      Decoded(c % 16 * 4096 + s[i + 1] as int % 64 * 64 + s[i + 2] as int % 64, 3)
    else if 0xF0 <= c < 0xF8 && i + 3 < |s| then
      Decoded(c % 8 * 262144 + s[i + 1] as int % 64 * 4096 + s[i + 2] as int % 64 * 64 + s[i + 3] as int % 64, 4)
    else Decoded(' ' as int, 1)
  }

  predicate Bytes(s: string) {
    forall k :: 0 <= k < |s| ==> s[k] as int < 256
  }

  lemma EncodeIsBytes(cp: int)
    requires 0 <= cp < CODE_POINTS
    ensures Bytes(Encode(cp))
  {
  }

  lemma TwoBytes(cp: int)
    requires 0x80 <= cp < 0x800
    ensures 0xC0 <= 0xC0 + cp / 64 < 0xE0
    ensures (0xC0 + cp / 64) % 32 * 64 + (0x80 + cp % 64) % 64 == cp
  {
  }

  lemma ThreeBytes(cp: int)
    requires 0x800 <= cp < 0x10000
    ensures 0xE0 <= 0xE0 + cp / 4096 < 0xF0
    ensures (0xE0 + cp / 4096) % 16 * 4096 + (0x80 + cp / 64 % 64) % 64 * 64 + (0x80 + cp % 64) % 64 == cp
  {
    assert (0xE0 + cp / 4096) % 16 == cp / 4096;
  }

  lemma FourBytes(cp: int)
    requires 0x10000 <= cp < CODE_POINTS
    ensures 0xF0 <= 0xF0 + cp / 262144 < 0xF8
    ensures (0xF0 + cp / 262144) % 8 * 262144 + (0x80 + cp / 4096 % 64) % 64 * 4096 +
            (0x80 + cp / 64 % 64) % 64 * 64 + (0x80 + cp % 64) % 64 == cp
  {
    assert (0xF0 + cp / 262144) % 8 == cp / 262144;
    LowSix(cp / 4096 % 64);
    LowSix(cp / 64 % 64);
    LowSix(cp % 64);
    Nested(cp);
  }

  lemma LowSix(x: int)
    requires 0 <= x < 64
    ensures (0x80 + x) % 64 == x
  {
  }

  lemma Nested(cp: int)
    requires 0 <= cp < CODE_POINTS
    ensures cp == cp / 262144 * 262144 + cp / 4096 % 64 * 4096 + cp / 64 % 64 * 64 + cp % 64
  {
    assert cp == cp / 64 * 64 + cp % 64;
    assert cp / 64 == cp / 4096 * 64 + cp / 64 % 64;
    assert cp / 4096 == cp / 262144 * 64 + cp / 4096 % 64;
  }

  lemma DecodeAlone(cp: int)
    requires 0 <= cp < CODE_POINTS
    ensures Bytes(Encode(cp)) && DecodeAt(Encode(cp), 0) == Decoded(cp, |Encode(cp)|)
  {
    EncodeIsBytes(cp);
    if cp < 0x80 {
    } else if cp < 0x800 {
      TwoBytes(cp);
    } else if cp < 0x10000 {
      ThreeBytes(cp);
    } else {
      FourBytes(cp);
    }
  }

  // The decoder looks at no byte outside the code point it reads.
  lemma DecodeLocal(pre: string, e: string, rest: string)
    requires Bytes(pre) && Bytes(e) && Bytes(rest) && e != "" && DecodeAt(e, 0).len == |e|
    requires e[0] as int < 0x80 || e[0] as int >= 0xC0
    requires |e| > 1 || e[0] as int < 0x80
    ensures Bytes(pre + e + rest) && DecodeAt(pre + e + rest, |pre|) == DecodeAt(e, 0)
  {
    var s := pre + e + rest;
    assert s[|pre|] == e[0];
    assert |e| > 1 ==> s[|pre| + 1] == e[1];
    assert |e| > 2 ==> s[|pre| + 2] == e[2];
    assert |e| > 3 ==> s[|pre| + 3] == e[3];
  }

  // Decoding undoes encoding, wherever in a text the bytes stand.
  lemma DecodeEncoded(pre: string, cp: int, rest: string)
    requires 0 <= cp < CODE_POINTS && Bytes(pre) && Bytes(rest)
    ensures Bytes(pre + Encode(cp) + rest)
    ensures DecodeAt(pre + Encode(cp) + rest, |pre|) == Decoded(cp, |Encode(cp)|)
  {
    hide DecodeAt;
    DecodeAlone(cp);
    DecodeLocal(pre, Encode(cp), rest);
  }

  // Known answers of one, two, three and four bytes: A, e acute, the euro sign, a smiling face.
  lemma KnownEncodings()
    ensures Encode(0x41) == "A"
    ensures Encode(0xE9) == [ByteChar(0xC3), ByteChar(0xA9)]
    ensures Encode(0x20AC) == [ByteChar(0xE2), ByteChar(0x82), ByteChar(0xAC)]
    ensures Encode(0x1F600) == [ByteChar(0xF0), ByteChar(0x9F), ByteChar(0x98), ByteChar(0x80)]
  {
  }

  // How many bytes a lead byte takes; a stray or unfinished one is a space on its own.
  lemma LeadBytesDecide(s: string, i: nat)
    requires i < |s| && Bytes(s)
    ensures var c, d, left := s[i] as int, DecodeAt(s, i), |s| - i;
            && (c <= 0x7F ==> d == Decoded(c, 1))
            && (0x80 <= c <= 0xBF || c >= 0xF8 ==> d == Decoded(0x20, 1))
            && (0xC0 <= c <= 0xDF ==> if left >= 2 then d.len == 2 else d == Decoded(0x20, 1))
            && (0xE0 <= c <= 0xEF ==> if left >= 3 then d.len == 3 else d == Decoded(0x20, 1))
            && (0xF0 <= c <= 0xF7 ==> if left >= 4 then d.len == 4 else d == Decoded(0x20, 1))
  {
  }
}
