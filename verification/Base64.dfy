/**
Base64 as the attestation library does it, proved against the description of section 4 of
RFC 4648: a stream of bits cut into sixes on the way out and into eights on the way back.
Shifts and masks on unsigned words are written as division and remainder.
*/
module Base64 {
  import opened Text

  // ---- Alphabet ----

  function Symbol(v: int): (c: char)
    requires 0 <= v < 64
  {
    if v < 26 then ('A' as int + v) as char
    else if v < 52 then ('a' as int + (v - 26)) as char
    else if v < 62 then ('0' as int + (v - 52)) as char
    else if v == 62 then '+'
    else '/'
  }

  // The index table: -1 marks a character outside the alphabet.
  function Lookup(c: char): (v: int)
    ensures -1 <= v < 64
  {
    if 'A' <= c <= 'Z' then c as int - 'A' as int
    else if 'a' <= c <= 'z' then c as int - 'a' as int + 26
    else if '0' <= c <= '9' then c as int - '0' as int + 52
    else if c == '+' then 62
    else if c == '/' then 63
    else -1
  }

  predicate Stops(c: char) {
    c == '=' || c == '\n' || c == '\r' || c == ' '
  }

  lemma LookupInvertsSymbol(v: int)
    requires 0 <= v < 64
    ensures Lookup(Symbol(v)) == v && !Stops(Symbol(v))
  {
  }

  // ---- Bits ----

  type Bit = b: int | 0 <= b < 2

  function Pow2(n: nat): (r: nat)
    ensures r > 0
  {
    if n == 0 then 1 else 2 * Pow2(n - 1)
  }

  // The low n bits of v, most significant first.
  function Bits(v: nat, n: nat): (r: seq<Bit>)
    ensures |r| == n
  {
    if n == 0 then [] else Bits(v / 2, n - 1) + [v % 2]
  }

  function Val(bits: seq<Bit>): nat {
    if bits == [] then 0 else 2 * Val(bits[..|bits| - 1]) + bits[|bits| - 1]
  }

  lemma {:induction false} ValOfBits(v: nat, n: nat)
    requires v < Pow2(n)
    ensures Val(Bits(v, n)) == v
    decreases n
  {
    if n > 0 {
      ValOfBits(v / 2, n - 1);
      assert Bits(v, n)[..n - 1] == Bits(v / 2, n - 1);
    }
  }

  lemma DoubleOut(x: nat, p: nat, y: nat, d: nat)
    ensures 2 * (x * p + y) + d == x * (2 * p) + (2 * y + d)
  {
  }

  lemma {:induction false} ValAppend(a: seq<Bit>, b: seq<Bit>)
    ensures Val(a + b) == Val(a) * Pow2(|b|) + Val(b)
    decreases |b|
  {
    if b == [] {
      assert a + b == a;
    } else {
      ValAppend(a, b[..|b| - 1]);
      assert (a + b)[..|a + b| - 1] == a + b[..|b| - 1];
      DoubleOut(Val(a), Pow2(|b| - 1), Val(b[..|b| - 1]), b[|b| - 1]);
    }
  }

  lemma {:induction false} ValBound(bits: seq<Bit>)
    ensures Val(bits) < Pow2(|bits|)
    decreases |bits|
  {
    if bits != [] {
      ValBound(bits[..|bits| - 1]);
    }
  }

  lemma Halve(hi: nat, lo: nat, p: nat)
    ensures (hi * (2 * p) + lo) / 2 == hi * p + lo / 2
    ensures (hi * (2 * p) + lo) % 2 == lo % 2
  {
    assert hi * (2 * p) == 2 * (hi * p);
  }

  // A field of bits is two narrower fields side by side.
  lemma {:induction false} BitsSplit(hi: nat, lo: nat, m: nat, n: nat)
    requires lo < Pow2(n)
    ensures Bits(hi * Pow2(n) + lo, m + n) == Bits(hi, m) + Bits(lo, n)
    decreases n
  {
    if n == 0 {
      assert hi * Pow2(0) + lo == hi && m + 0 == m;
    } else {
      Halve(hi, lo, Pow2(n - 1));
      BitsSplit(hi, lo / 2, m, n - 1);
    }
  }

  // ---- The reference: a bit stream ----

  function BitsOfBytes(data: seq<Byte>): seq<Bit> {
    if data == [] then [] else Bits(data[0], 8) + BitsOfBytes(data[1..])
  }

  function BitsOfSextets(vs: seq<int>): (r: seq<Bit>)
    requires forall i :: 0 <= i < |vs| ==> 0 <= vs[i] < 64
    ensures |r| == 6 * |vs|
  {
    if vs == [] then [] else BitsOfSextets(vs[..|vs| - 1]) + Bits(vs[|vs| - 1], 6)
  }

  // Whole bytes of a bit stream; what is left over is dropped.
  function BytesOfBits(bits: seq<Bit>): seq<Byte> {
    if |bits| < 8 then []
    else
      ValBound(bits[..8]);
      [Val(bits[..8])] + BytesOfBits(bits[8..])
  }

  // The text up to the first padding or white-space character.
  function Significant(s: string): string {
    if s == "" || Stops(s[0]) then "" else [s[0]] + Significant(s[1..])
  }

  predicate AllInAlphabet(s: string) {
    forall i :: 0 <= i < |s| ==> Lookup(s[i]) >= 0
  }

  function SextetsOf(s: string): (vs: seq<int>)
    requires AllInAlphabet(s)
    ensures |vs| == |s| && forall i :: 0 <= i < |vs| ==> 0 <= vs[i] < 64 && vs[i] == Lookup(s[i])
  {
    seq(|s|, i requires 0 <= i < |s| => Lookup(s[i]))
  }

  // The decoder the standard describes, over bits without bound. None is rejection.
  function Decode(s: string): Option<seq<Byte>> {
    var text := Significant(s);
    if !AllInAlphabet(text) then None else Some(BytesOfBits(BitsOfSextets(SextetsOf(text))))
  }

  // ---- The source's decoder: a 32-bit accumulator that wraps ----

  // What the accumulator knows about the stream: its low `bits` bits are the pending ones.
  ghost predicate Tracks(stream: seq<Bit>, buffer: int, bits: int, out: seq<Byte>) {
    && 0 <= buffer < U32 && bits in {0, 2, 4, 6} && bits <= |stream|
    && (|stream| - bits) % 8 == 0
    && out == BytesOfBits(stream)
    && buffer % Pow2(bits) == Val(stream[|stream| - bits..])
  }

  lemma {:induction false} BytesAppend(a: seq<Bit>, b: seq<Bit>)
    requires |a| % 8 == 0
    ensures BytesOfBits(a + b) == BytesOfBits(a) + BytesOfBits(b)
    decreases |a|
  {
    if a == [] {
      assert a + b == b;
    } else {
      assert (a + b)[..8] == a[..8] && (a + b)[8..] == a[8..] + b;
      BytesAppend(a[8..], b);
    }
  }

  lemma SmallPowers()
    ensures Pow2(0) == 1 && Pow2(2) == 4 && Pow2(4) == 16 && Pow2(6) == 64 && Pow2(8) == 256
    ensures Pow2(10) == 1024 && Pow2(12) == 4096 && Pow2(16) == 65536 && Pow2(18) == 262144 && Pow2(24) == 16777216
  {
    assert Pow2(6) == 64;
    assert Pow2(12) == 4096;
    assert Pow2(18) == 262144;
  }

  lemma TailValue(pending: seq<Bit>, v: int)
    requires 0 <= v < 64
    ensures Val(pending + Bits(v, 6)) == Val(pending) * 64 + v
  {
    SmallPowers();
    ValOfBits(v, 6);
    ValAppend(pending, Bits(v, 6));
  }

  // Six more bits complete a byte of the stream: the first eight of the pending ones.
  lemma ByteCompleted(stream: seq<Bit>, bits: int, v: int) returns (first: int, rest: int)
    requires bits in {2, 4, 6} && bits <= |stream| && (|stream| - bits) % 8 == 0 && 0 <= v < 64
    ensures 0 <= first < 256 && 0 <= rest < Pow2(bits - 2)
    ensures first * Pow2(bits - 2) + rest == Val(stream[|stream| - bits..]) * 64 + v
    ensures BytesOfBits(stream + Bits(v, 6)) == BytesOfBits(stream) + [first]
    ensures var s := stream + Bits(v, 6);
            && bits - 2 <= |s| && (|s| - (bits - 2)) % 8 == 0
            && Val(s[|s| - (bits - 2)..]) == rest
  {
    hide Bits, BytesOfBits, Val, Pow2;
    var six := Bits(v, 6);
    var whole, pending := stream[..|stream| - bits], stream[|stream| - bits..];
    var tail := pending + six;
    var head, left := tail[..8], tail[8..];
    first, rest := Val(head), Val(left);
    assert stream == whole + pending && stream + six == whole + tail && tail == head + left;
    BytesAppend(whole, pending);
    BytesAppend(whole, tail);
    FewBits(pending);
    ByteThenFew(head, left);
    TailValue(pending, v);
    ValAppend(head, left);
    SmallPowers();
    ValBound(head);
    ValBound(left);
    assert (stream + six)[|stream + six| - (bits - 2)..] == left;
  }

  lemma FewBits(bits: seq<Bit>)
    requires |bits| < 8
    ensures BytesOfBits(bits) == []
  {
  }

  lemma ByteThenFew(head: seq<Bit>, left: seq<Bit>)
    requires |head| == 8 && |left| < 8
    ensures 0 <= Val(head) < 256 && BytesOfBits(head + left) == [Val(head)]
  {
    ValBound(head);
    SmallPowers();
    hide Pow2, Val;
    assert (head + left)[..8] == head && (head + left)[8..] == left;
    FewBits(left);
  }

  lemma TrackByte(stream: seq<Bit>, buffer: int, bits: int, out: seq<Byte>, v: int)
    requires Tracks(stream, buffer, bits, out) && 0 <= v < 64 && bits >= 2
    ensures var buffer' := (buffer * 64) % U32 + v;
            Tracks(stream + Bits(v, 6), buffer', bits - 2, out + [buffer' / Pow2(bits - 2) % 256])
  {
    hide Bits, BytesOfBits, Val, Pow2;
    var first, rest := ByteCompleted(stream, bits, v);
    NextByte(buffer, bits, v, Val(stream[|stream| - bits..]), first, rest);
    assert ByteDone(stream + Bits(v, 6), (buffer * 64) % U32 + v, bits, out, first, rest);
    hide Tracks;
    ByteTracked(stream + Bits(v, 6), (buffer * 64) % U32 + v, bits, out, first, rest);
  }

  lemma NextByte(buffer: int, bits: int, v: int, pending: int, first: int, rest: int)
    requires 0 <= buffer < U32 && bits in {2, 4, 6} && 0 <= v < 64 && buffer % Pow2(bits) == pending
    requires 0 <= first < 256 && 0 <= rest < Pow2(bits - 2)
    requires first * Pow2(bits - 2) + rest == pending * 64 + v
    ensures var buffer' := (buffer * 64) % U32 + v;
            && 0 <= buffer' < U32
            && buffer' / Pow2(bits - 2) % 256 == first && buffer' % Pow2(bits - 2) == rest
  {
    hide Pow2;
    LowBits(buffer, bits, v);
    CutByte((buffer * 64) % U32 + v, bits, first, rest);
  }

  ghost predicate ByteDone(s: seq<Bit>, buffer: int, bits: int, out: seq<Byte>, first: int, rest: int) {
    && 0 <= buffer < U32 && bits in {2, 4, 6} && bits - 2 <= |s| && (|s| - (bits - 2)) % 8 == 0
    && 0 <= first < 256 && BytesOfBits(s) == out + [first]
    && buffer / Pow2(bits - 2) % 256 == first
    && buffer % Pow2(bits - 2) == rest == Val(s[|s| - (bits - 2)..])
  }

  lemma ByteTracked(s: seq<Bit>, buffer: int, bits: int, out: seq<Byte>, first: int, rest: int)
    requires ByteDone(s, buffer, bits, out, first, rest)
    ensures Tracks(s, buffer, bits - 2, out + [buffer / Pow2(bits - 2) % 256])
  {
    hide Bits, BytesOfBits, Val, Pow2;
  }

  lemma TrackFew(stream: seq<Bit>, buffer: int, out: seq<Byte>, v: int)
    requires Tracks(stream, buffer, 0, out) && 0 <= v < 64
    ensures Tracks(stream + Bits(v, 6), (buffer * 64) % U32 + v, 6, out)
  {
    var six := Bits(v, 6);
    BytesAppend(stream, six);
    LowBits(buffer, 0, v);
    TailValue([], v);
    assert [] + six == six && (stream + six)[|stream + six| - 6..] == six;
    SmallPowers();
  }

  // Wrapping at 32 bits leaves the low bits of the accumulator alone.
  lemma LowBits(buffer: int, bits: int, v: int)
    requires 0 <= buffer < U32 && bits in {0, 2, 4, 6} && 0 <= v < 64
    ensures var buffer' := (buffer * 64) % U32 + v;
            0 <= buffer' < U32 && buffer' % Pow2(bits + 6) == buffer % Pow2(bits) * 64 + v
  {
    SmallPowers();
    hide Pow2;
    var w := Wrapped(buffer, v);
    Low0(buffer, w, v);
    Low2(buffer, w, v);
    Low4(buffer, w, v);
    Low6(buffer, w, v);
  }

  lemma Wrapped(buffer: int, v: int) returns (w: int)
    requires 0 <= buffer < U32 && 0 <= v < 64
    ensures (buffer * 64) % U32 + v == 64 * buffer + v - w * 4294967296
    ensures 0 <= (buffer * 64) % U32 + v < U32
  {
    w := (buffer * 64) / 4294967296;
    assert (buffer * 64) % 64 == 0;
  }

  lemma Low0(b: int, w: int, v: int)
    requires 0 <= v < 64
    ensures (64 * b + v - w * 4294967296) % 64 == v
  {
    assert 64 * b + v - w * 4294967296 == 64 * (b - w * 67108864) + v;
  }

  lemma Low2(b: int, w: int, v: int)
    requires 0 <= v < 64
    ensures (64 * b + v - w * 4294967296) % 256 == b % 4 * 64 + v
  {
    assert 64 * b + v - w * 4294967296 == 256 * (b / 4 - w * 16777216) + (b % 4 * 64 + v);
  }

  lemma Low4(b: int, w: int, v: int)
    requires 0 <= v < 64
    ensures (64 * b + v - w * 4294967296) % 1024 == b % 16 * 64 + v
  {
    assert 64 * b + v - w * 4294967296 == 1024 * (b / 16 - w * 4194304) + (b % 16 * 64 + v);
  }

  lemma Low6(b: int, w: int, v: int)
    requires 0 <= v < 64
    ensures (64 * b + v - w * 4294967296) % 4096 == b % 64 * 64 + v
  {
    assert 64 * b + v - w * 4294967296 == 4096 * (b / 64 - w * 1048576) + (b % 64 * 64 + v);
  }

  lemma CutByte(buffer: int, bits: int, first: int, rest: int)
    requires bits in {2, 4, 6} && 0 <= buffer && 0 <= first < 256 && 0 <= rest < Pow2(bits - 2)
    requires buffer % Pow2(bits + 6) == first * Pow2(bits - 2) + rest
    ensures buffer / Pow2(bits - 2) % 256 == first && buffer % Pow2(bits - 2) == rest
  {
    SmallPowers();
    hide Pow2;
    if bits == 4 {
      Cut4(buffer, first, rest);
    } else if bits == 6 {
      Cut16(buffer, first, rest);
    }
  }

  lemma Cut4(b: int, first: int, rest: int)
    requires 0 <= first < 256 && 0 <= rest < 4 && b % 1024 == first * 4 + rest
    ensures b / 4 % 256 == first && b % 4 == rest
  {
    assert b == 4 * (b / 1024 * 256 + first) + rest;
  }

  lemma Cut16(b: int, first: int, rest: int)
    requires 0 <= first < 256 && 0 <= rest < 16 && b % 4096 == first * 16 + rest
    ensures b / 16 % 256 == first && b % 16 == rest
  {
    assert b == 16 * (b / 4096 * 256 + first) + rest;
  }

  method Base64Decode(encoded: string) returns (r: Option<seq<Byte>>)
    ensures r == Decode(encoded)
  {
    hide Decode, Tracks, Lookup, Stops, Bits, BytesOfBits, BitsOfSextets, Pow2;
    var out: seq<Byte>, buffer, bits := [], 0, 0;
    var i := 0;
    TrackNothing();
    while i < |encoded| && !Stops(encoded[i])
      invariant i <= |encoded| && AllInAlphabet(encoded[..i])
      invariant forall k :: 0 <= k < i ==> !Stops(encoded[k])
      invariant 0 <= buffer && bits in {0, 2, 4, 6}
      invariant Tracks(BitsOfSextets(SextetsOf(encoded[..i])), buffer, bits, out)
    {
      var v := Lookup(encoded[i]);
      if v < 0 {
        Rejected(encoded, i);
        return None;
      }
      ghost var stream := BitsOfSextets(SextetsOf(encoded[..i]));
      if bits == 0 {
        TrackFew(stream, buffer, out, v);
      } else {
        TrackByte(stream, buffer, bits, out, v);
      }
      OneMoreSextet(encoded, i);
      buffer := (buffer * 64) % U32 + v;
      bits := bits + 6;
      if bits >= 8 {
        bits := bits - 8;
        out := out + [buffer / Pow2(bits) % 256];
      }
      i := i + 1;
    }
    Accepted(encoded, i, buffer, bits, out);
    r := Some(out);
  }

  lemma TrackNothing()
    ensures Tracks(BitsOfSextets(SextetsOf("")), 0, 0, [])
  {
  }

  lemma OneMoreSextet(s: string, i: nat)
    requires i < |s| && AllInAlphabet(s[..i]) && Lookup(s[i]) >= 0
    ensures AllInAlphabet(s[..i + 1])
    ensures BitsOfSextets(SextetsOf(s[..i + 1])) == BitsOfSextets(SextetsOf(s[..i])) + Bits(Lookup(s[i]), 6)
  {
    var vs := SextetsOf(s[..i + 1]);
    assert vs[..i] == SextetsOf(s[..i]);
  }

  lemma {:induction false} SignificantIs(s: string, i: nat)
    requires i <= |s| && forall k :: 0 <= k < i ==> !Stops(s[k])
    ensures i <= |Significant(s)| && Significant(s)[..i] == s[..i]
    ensures i == |s| || Stops(s[i]) ==> Significant(s) == s[..i]
    decreases |s|
  {
    if s != "" && !Stops(s[0]) {
      if i > 0 {
        SignificantIs(s[1..], i - 1);
        assert s[..i] == [s[0]] + s[1..][..i - 1];
      }
    }
  }

  lemma Rejected(s: string, i: nat)
    requires i < |s| && forall k :: 0 <= k < i ==> !Stops(s[k])
    requires !Stops(s[i]) && Lookup(s[i]) < 0
    ensures Decode(s) == None
  {
    SignificantIs(s, i + 1);
    assert Significant(s)[i] == Significant(s)[..i + 1][i] == s[i];
  }

  lemma Accepted(s: string, i: nat, buffer: int, bits: int, out: seq<Byte>)
    requires i <= |s| && AllInAlphabet(s[..i]) && (i == |s| || Stops(s[i]))
    requires forall k :: 0 <= k < i ==> !Stops(s[k])
    requires Tracks(BitsOfSextets(SextetsOf(s[..i])), buffer, bits, out)
    ensures Decode(s) == Some(out)
  {
    SignificantIs(s, i);
  }

  // ---- Encoder ----

  function Word(a: Byte, b: Byte, c: Byte): (v: nat)
    ensures v < 16777216
  {
    a * 65536 + b * 256 + c
  }

  function Four(v: nat): (r: seq<int>)
    requires v < 16777216
    ensures |r| == 4 && forall i :: 0 <= i < 4 ==> 0 <= r[i] < 64
  {
    [v / 262144 % 64, v / 4096 % 64, v / 64 % 64, v % 64]
  }

  function Symbols(vs: seq<int>): (r: string)
    requires forall i :: 0 <= i < |vs| ==> 0 <= vs[i] < 64
    ensures |r| == |vs|
  {
    seq(|vs|, i requires 0 <= i < |vs| => Symbol(vs[i]))
  }

  // The values of the symbols: four for three bytes, two or three for a last group of one or two.
  function SextetsOfBytes(data: seq<Byte>): (r: seq<int>)
    ensures forall i :: 0 <= i < |r| ==> 0 <= r[i] < 64
  {
    if data == [] then []
    else if |data| == 1 then Four(Word(data[0], 0, 0))[..2]
    else if |data| == 2 then Four(Word(data[0], data[1], 0))[..3]
    else Four(Word(data[0], data[1], data[2])) + SextetsOfBytes(data[3..])
  }

  function Padding(n: nat): string {
    if n % 3 == 1 then "==" else if n % 3 == 2 then "=" else ""
  }

  function Encode(data: seq<Byte>): string {
    Symbols(SextetsOfBytes(data)) + Padding(|data|)
  }

  lemma SymbolsAppend(a: seq<int>, b: seq<int>)
    requires forall i :: 0 <= i < |a| ==> 0 <= a[i] < 64
    requires forall i :: 0 <= i < |b| ==> 0 <= b[i] < 64
    ensures Symbols(a + b) == Symbols(a) + Symbols(b)
  {
  }

  lemma {:induction false} SextetsAppend(a: seq<Byte>, b: seq<Byte>)
    requires |a| % 3 == 0
    ensures SextetsOfBytes(a + b) == SextetsOfBytes(a) + SextetsOfBytes(b)
    decreases |a|
  {
    if a == [] {
      assert a + b == b;
    } else {
      SextetsAppend(a[3..], b);
      assert (a + b)[3..] == a[3..] + b;
      assert Four(Word(a[0], a[1], a[2])) + (SextetsOfBytes(a[3..]) + SextetsOfBytes(b)) ==
             Four(Word(a[0], a[1], a[2])) + SextetsOfBytes(a[3..]) + SextetsOfBytes(b);
    }
  }

  function FourChars(v: nat): (text: string)
    requires v < 16777216
    ensures |text| == 4
  {
    [Symbol(v / 262144 % 64), Symbol(v / 4096 % 64), Symbol(v / 64 % 64), Symbol(v % 64)]
  }

  // The text of the first i bytes, i a multiple of three, grows by a group.
  lemma AppendGroup(data: seq<Byte>, i: nat)
    requires i % 3 == 0 && i + 3 <= |data|
    ensures Symbols(SextetsOfBytes(data[..i + 3])) ==
            Symbols(SextetsOfBytes(data[..i])) + FourChars(Word(data[i], data[i + 1], data[i + 2]))
  {
    hide Symbol;
    var g := data[i..i + 3];
    var v := Word(g[0], g[1], g[2]);
    assert data[..i + 3] == data[..i] + g;
    SextetsAppend(data[..i], g);
    assert g[3..] == [] && SextetsOfBytes(g) == Four(v) + [] == Four(v);
    assert Symbols(Four(v)) == FourChars(v);
    SymbolsAppend(SextetsOfBytes(data[..i]), Four(v));
  }

  lemma LastGroup(g: seq<Byte>)
    requires |g| == 1 || |g| == 2
    ensures SextetsOfBytes(g) == Four(Word(g[0], if |g| > 1 then g[1] else 0, 0))[..|g| + 1]
  {
  }

  lemma FourPrefix(v: nat, k: nat)
    requires v < 16777216 && k <= 4
    ensures Symbols(Four(v)[..k]) == FourChars(v)[..k]
  {
    assert Symbols(Four(v)) == FourChars(v);
  }

  lemma AppendLast(data: seq<Byte>, i: nat)
    requires i % 3 == 0 && i < |data| < i + 3
    ensures var v := Word(data[i], if i + 1 < |data| then data[i + 1] else 0, 0);
            Symbols(SextetsOfBytes(data)) ==
            Symbols(SextetsOfBytes(data[..i])) + FourChars(v)[..|data| - i + 1]
  {
    hide Symbol, Symbols, SextetsOfBytes, Word, Four, FourChars;
    var g := data[i..];
    var v := Word(data[i], if i + 1 < |data| then data[i + 1] else 0, 0);
    assert data == data[..i] + g;
    SextetsAppend(data[..i], g);
    LastGroup(g);
    FourPrefix(v, |g| + 1);
    SymbolsAppend(SextetsOfBytes(data[..i]), Four(v)[..|g| + 1]);
  }

  // The last one or two bytes, with padding.
  method LastText(v: nat, two: bool) returns (text: string)
    requires v < 16777216
    ensures text == if two then FourChars(v)[..3] + "=" else FourChars(v)[..2] + "=="
  {
    hide Symbol;
    text := [Symbol(v / 262144 % 64), Symbol(v / 4096 % 64)];
    if two {
      text := text + [Symbol(v / 64 % 64)];
      text := text + "=";
    } else {
      text := text + "==";
    }
  }

  method Base64Encode(data: seq<Byte>) returns (out: string)
    ensures out == Encode(data)
  {
    hide SextetsOfBytes, Symbols, FourChars, Word, Encode;
    out := "";
    var i := 0;
    EmptyGroup();
    while i + 3 <= |data|
      invariant i <= |data| && i % 3 == 0
      invariant out == Symbols(SextetsOfBytes(data[..i]))
    {
      var v := Word(data[i], data[i + 1], data[i + 2]);
      AppendGroup(data, i);
      out := out + FourChars(v);
      i := i + 3;
    }
    if i < |data| {
      var v := Word(data[i], if i + 1 < |data| then data[i + 1] else 0, 0);
      LastPadded(data, i);
      var text := LastText(v, i + 1 < |data|);
      out := out + text;
    } else {
      assert data[..i] == data && out + "" == out;
      NoPadding(data);
    }
  }

  lemma NoPadding(data: seq<Byte>)
    requires |data| % 3 == 0
    ensures Encode(data) == Symbols(SextetsOfBytes(data)) + ""
  {
    hide SextetsOfBytes, Symbols;
  }

  lemma LastPadded(data: seq<Byte>, i: nat)
    requires i % 3 == 0 && i < |data| < i + 3
    ensures var v, two := Word(data[i], if i + 1 < |data| then data[i + 1] else 0, 0), i + 1 < |data|;
            Symbols(SextetsOfBytes(data[..i])) + (if two then FourChars(v)[..3] + "=" else FourChars(v)[..2] + "==") ==
            Encode(data)
  {
    hide SextetsOfBytes, Symbols, FourChars, Word;
    var v := Word(data[i], if i + 1 < |data| then data[i + 1] else 0, 0);
    AppendLast(data, i);
    Assoc(Symbols(SextetsOfBytes(data[..i])), FourChars(v)[..|data| - i + 1], Padding(|data|));
    LastCount(i, |data|);
  }

  lemma LastCount(i: nat, n: nat)
    requires i % 3 == 0 && i < n < i + 3
    ensures Padding(n) == if i + 1 < n then "=" else "=="
  {
  }

  lemma EmptyGroup()
    ensures Symbols(SextetsOfBytes([])) == ""
  {
  }

  // ---- Round trip ----

  lemma SextetParts(v: nat)
    requires v < 16777216
    ensures v == v / 64 * 64 + v % 64
    ensures v / 64 == v / 4096 * 64 + v / 64 % 64
    ensures v / 4096 == v / 262144 * 64 + v / 4096 % 64
    ensures v / 262144 % 64 == v / 262144
  {
  }

  lemma SextetBits(v: nat)
    requires v < 16777216
    ensures BitsOfSextets(Four(v)) == Bits(v, 24)
  {
    hide Bits, BitsOfSextets;
    SmallPowers();
    SextetParts(v);
    BitsSplit(v / 64, v % 64, 18, 6);
    BitsSplit(v / 4096, v / 64 % 64, 12, 6);
    BitsSplit(v / 262144, v / 4096 % 64, 6, 6);
    FourBits(v / 262144 % 64, v / 4096 % 64, v / 64 % 64, v % 64);
  }

  // Twenty-four bits are three bytes or four sextets.
  lemma GroupBits(a: Byte, b: Byte, c: Byte)
    ensures BitsOfSextets(Four(Word(a, b, c))) == Bits(a, 8) + Bits(b, 8) + Bits(c, 8)
  {
    hide Bits, BitsOfSextets, Pow2, Four;
    SmallPowers();
    var p := Pow2(8);
    assert (a * 256 + b) * p + c == Word(a, b, c) && a * p + b == a * 256 + b;
    BitsSplit(a * 256 + b, c, 16, 8);
    BitsSplit(a, b, 8, 8);
    SextetBits(Word(a, b, c));
  }

  lemma FourBits(a: int, b: int, c: int, d: int)
    requires 0 <= a < 64 && 0 <= b < 64 && 0 <= c < 64 && 0 <= d < 64
    ensures BitsOfSextets([a, b, c, d]) == Bits(a, 6) + Bits(b, 6) + Bits(c, 6) + Bits(d, 6)
    ensures BitsOfSextets([a, b, c]) == Bits(a, 6) + Bits(b, 6) + Bits(c, 6)
    ensures BitsOfSextets([a, b]) == Bits(a, 6) + Bits(b, 6)
  {
    OneSextet(a);
    OneSextet(b);
    OneSextet(c);
    OneSextet(d);
    hide Bits, BitsOfSextets;
    assert [a, b] == [a] + [b] && [a, b, c] == [a, b] + [c] && [a, b, c, d] == [a, b, c] + [d];
    BitsOfSextetsAppend([a], [b]);
    BitsOfSextetsAppend([a, b], [c]);
    BitsOfSextetsAppend([a, b, c], [d]);
  }

  lemma OneSextet(v: int)
    requires 0 <= v < 64
    ensures BitsOfSextets([v]) == Bits(v, 6)
  {
    hide Bits;
    assert [v][..0] == [] && [] + Bits(v, 6) == Bits(v, 6);
  }

  lemma {:induction false} BitsOfSextetsAppend(a: seq<int>, b: seq<int>)
    requires forall i :: 0 <= i < |a| ==> 0 <= a[i] < 64
    requires forall i :: 0 <= i < |b| ==> 0 <= b[i] < 64
    ensures BitsOfSextets(a + b) == BitsOfSextets(a) + BitsOfSextets(b)
    decreases |b|
  {
    hide Bits;
    if b == [] {
      assert a + b == a;
    } else {
      var k := |b| - 1;
      BitsOfSextetsAppend(a, b[..k]);
      assert (a + b)[..|a| + k] == a + b[..k];
      Assoc(BitsOfSextets(a), BitsOfSextets(b[..k]), Bits(b[k], 6));
    }
  }

  // The symbols carry the bits of the data followed by fewer than six zero bits.
  lemma {:induction false} EncodedBits(data: seq<Byte>) returns (pad: seq<Bit>)
    ensures |pad| < 6 && pad == Bits(0, |pad|)
    ensures BitsOfSextets(SextetsOfBytes(data)) == BitsOfBytes(data) + pad
    decreases |data|
  {
    if data == [] {
      pad := [];
    } else if |data| <= 2 {
      pad := LastGroupBits(data);
    } else {
      pad := EncodedBits(data[3..]);
      GroupThenRest(data, pad);
    }
  }

  lemma FirstGroup(data: seq<Byte>)
    requires |data| >= 3
    ensures SextetsOfBytes(data) == Four(Word(data[0], data[1], data[2])) + SextetsOfBytes(data[3..])
  {
    hide Four, Word;
  }

  lemma FirstThree(data: seq<Byte>)
    requires |data| >= 3
    ensures data == [data[0], data[1], data[2]] + data[3..]
  {
  }

  lemma GroupThenRest(data: seq<Byte>, pad: seq<Bit>)
    requires |data| >= 3
    requires BitsOfSextets(SextetsOfBytes(data[3..])) == BitsOfBytes(data[3..]) + pad
    ensures BitsOfSextets(SextetsOfBytes(data)) == BitsOfBytes(data) + pad
  {
    hide *;
    var g, rest := [data[0], data[1], data[2]], data[3..];
    var four := Four(Word(data[0], data[1], data[2]));
    FirstGroup(data);
    FirstThree(data);
    GroupBits(data[0], data[1], data[2]);
    ThreeBytes(data[0], data[1], data[2]);
    BitsOfSextetsAppend(four, SextetsOfBytes(rest));
    BitsOfBytesAppend(g, rest);
    Assoc(BitsOfBytes(g), BitsOfBytes(rest), pad);
  }

  lemma {:induction false} BitsOfBytesAppend(a: seq<Byte>, b: seq<Byte>)
    ensures BitsOfBytes(a + b) == BitsOfBytes(a) + BitsOfBytes(b)
    decreases |a|
  {
    hide Bits;
    if a == [] {
      assert a + b == b;
    } else {
      BitsOfBytesAppend(a[1..], b);
      assert (a + b)[1..] == a[1..] + b;
    }
  }

  lemma ThreeBytes(x: Byte, y: Byte, z: Byte)
    ensures BitsOfBytes([x, y, z]) == Bits(x, 8) + Bits(y, 8) + Bits(z, 8)
  {
    hide Bits;
    assert [x, y, z] == [x] + [y] + [z];
    BitsOfBytesAppend([x] + [y], [z]);
    BitsOfBytesAppend([x], [y]);
  }

  lemma LastGroupBits(data: seq<Byte>) returns (pad: seq<Bit>)
    requires |data| == 1 || |data| == 2
    ensures |pad| < 6 && pad == Bits(0, |pad|)
    ensures BitsOfSextets(SextetsOfBytes(data)) == BitsOfBytes(data) + pad
  {
    var b := if |data| > 1 then data[1] else 0;
    var f := Four(Word(data[0], b, 0));
    pad := Bits(0, if |data| == 1 then 4 else 2);
    GroupBits(data[0], b, 0);
    FourBits(f[0], f[1], f[2], f[3]);
    var all := BitsOfSextets(f);
    assert all[..18] == BitsOfSextets(f[..3]) && all[..12] == BitsOfSextets(f[..2]);
    ZeroBits(8);
    ZeroBits(4);
    ZeroBits(2);
    if |data| == 1 {
      assert data[1..] == [] && BitsOfBytes(data) == Bits(data[0], 8);
      assert all[..12] == Bits(data[0], 8) + pad;
    } else {
      assert data[1..][1..] == [] && BitsOfBytes(data[1..]) == Bits(data[1], 8);
      assert all[..18] == Bits(data[0], 8) + Bits(data[1], 8) + pad;
    }
  }

  lemma {:induction false} ZeroBits(n: nat)
    ensures forall i :: 0 <= i < n ==> Bits(0, n)[i] == 0
  {
    if n > 0 {
      ZeroBits(n - 1);
    }
  }

  lemma {:induction false} BytesOfByteBits(data: seq<Byte>, pad: seq<Bit>)
    requires |pad| < 8
    ensures BytesOfBits(BitsOfBytes(data) + pad) == data
    decreases |data|
  {
    if data == [] {
      assert BitsOfBytes(data) + pad == pad;
    } else {
      var bits := BitsOfBytes(data) + pad;
      assert bits[..8] == Bits(data[0], 8) && bits[8..] == BitsOfBytes(data[1..]) + pad;
      SmallPowers();
      ValOfBits(data[0], 8);
      BytesOfByteBits(data[1..], pad);
    }
  }

  lemma SignificantOfEncoding(vs: seq<int>, padding: string)
    requires forall i :: 0 <= i < |vs| ==> 0 <= vs[i] < 64
    requires padding == "" || padding[0] == '='
    ensures Significant(Symbols(vs) + padding) == Symbols(vs)
    ensures AllInAlphabet(Symbols(vs)) && SextetsOf(Symbols(vs)) == vs
  {
    var s := Symbols(vs) + padding;
    forall i | 0 <= i < |vs|
      ensures Lookup(Symbols(vs)[i]) == vs[i] && !Stops(s[i])
    {
      LookupInvertsSymbol(vs[i]);
    }
    SignificantIs(s, |vs|);
    assert s[..|vs|] == Symbols(vs);
  }

  // Every byte sequence comes back from its encoding.
  lemma Base64RoundTrip(data: seq<Byte>)
    ensures Decode(Encode(data)) == Some(data)
  {
    SignificantOfEncoding(SextetsOfBytes(data), Padding(|data|));
    var pad := EncodedBits(data);
    BytesOfByteBits(data, pad);
  }

  // ---- Alphabet, padding and rejection spelled out ----

  const UPPER: string := "ABCDEFGHIJKLMNOPQRSTUVWXYZ"
  const LOWER: string := "abcdefghijklmnopqrstuvwxyz"
  const DIGITS: string := "0123456789"
  const ALPHABET: string := UPPER + LOWER + DIGITS + "+/"

  lemma UpperSymbol(v: int)
    requires 0 <= v < 26
    ensures |UPPER| == 26 && Symbol(v) == UPPER[v]
  {
  }

  lemma LowerSymbol(v: int)
    requires 26 <= v < 52
    ensures |LOWER| == 26 && Symbol(v) == LOWER[v - 26]
  {
  }

  lemma SymbolIsInTable(v: int)
    requires 0 <= v < 64
    ensures |ALPHABET| == 64 && Symbol(v) == ALPHABET[v]
  {
    UpperSymbol(0);
    LowerSymbol(26);
    if v < 26 {
      UpperSymbol(v);
    } else if v < 52 {
      LowerSymbol(v);
    }
    hide UPPER, LOWER;
  }

  lemma LookupIsPlace(c: char)
    ensures Lookup(c) >= 0 ==> c == ALPHABET[Lookup(c)]
    ensures Lookup(c) < 0 <==> c !in ALPHABET
  {
    if Lookup(c) >= 0 {
      SymbolIsInTable(Lookup(c));
      assert Symbol(Lookup(c)) == c;
    } else if c in ALPHABET {
      var v :| 0 <= v < 64 && ALPHABET[v] == c;
      SymbolIsInTable(v);
      LookupInvertsSymbol(v);
    }
  }

  // A text is rejected if and only if something outside the alphabet comes before the first
  // padding or white-space character, and what comes after that is ignored.
  lemma RejectsExactly(s: string)
    ensures Decode(s).None? <==>
            exists i :: 0 <= i < |s| && s[i] !in ALPHABET && forall k :: 0 <= k <= i ==> s[k] !in "=\n\r "
  {
    hide ALPHABET;
    var n := |Significant(s)|;
    SignificantPart(s);
    forall i | 0 <= i < n ensures Lookup(s[i]) < 0 <==> s[i] !in ALPHABET {
      LookupIsPlace(s[i]);
    }
    forall c: char ensures Stops(c) <==> c in "=\n\r " {
      StopCharacters(c);
    }
    hide Lookup, Stops;
    if Decode(s).None? {
      var i :| 0 <= i < n && Lookup(Significant(s)[i]) < 0;
      assert s[i] == Significant(s)[i] && s[i] !in ALPHABET;
    }
    forall i | 0 <= i < |s| && s[i] !in ALPHABET && forall k :: 0 <= k <= i ==> s[k] !in "=\n\r "
      ensures Decode(s).None?
    {
      assert i < n;
      assert Lookup(Significant(s)[i]) < 0;
    }
  }

  lemma StopCharacters(c: char)
    ensures Stops(c) <==> c in "=\n\r "
  {
    var stops := "=\n\r ";
    assert stops[0] == '=' && stops[1] == '\n' && stops[2] == '\r' && stops[3] == ' ' && |stops| == 4;
  }

  lemma {:induction false} SignificantPart(s: string)
    ensures var n := |Significant(s)|;
            && n <= |s| && Significant(s) == s[..n] && (n < |s| ==> Stops(s[n]))
            && forall k :: 0 <= k < n ==> !Stops(s[k])
    decreases |s|
  {
    if s != "" && !Stops(s[0]) {
      SignificantPart(s[1..]);
      var n := |Significant(s[1..])|;
      assert s[..n + 1] == [s[0]] + s[1..][..n];
    }
  }

  lemma RestIgnored(a: string, c: char, rest: string)
    requires c in "=\n\r "
    ensures Decode(a + [c] + rest) == Decode(a)
  {
    StopCharacters(c);
    var s := a + [c] + rest;
    SignificantPart(a);
    var n := |Significant(a)|;
    assert s[..n] == a[..n] && forall k :: 0 <= k < |a| ==> s[k] == a[k];
    assert n < |a| ==> Stops(s[n]);
    assert s[|a|] == c;
    SignificantIs(s, n);
  }

  // Encodings come in groups of four.
  lemma {:induction false} EncodedLength(data: seq<Byte>)
    ensures |Encode(data)| == 4 * ((|data| + 2) / 3)
    decreases |data|
  {
    if |data| > 2 {
      EncodedLength(data[3..]);
      SextetsOnward(data);
      ThirdStep(|data|);
      hide SextetsOfBytes, Padding;
    } else {
      ShortLength(data);
    }
  }

  lemma ThirdStep(n: nat)
    requires n > 2
    ensures (n + 2) / 3 == (n - 3 + 2) / 3 + 1
  {
  }

  lemma ShortLength(data: seq<Byte>)
    requires |data| <= 2
    ensures |Encode(data)| == 4 * ((|data| + 2) / 3)
  {
    hide Four, Word;
  }

  lemma SextetsOnward(data: seq<Byte>)
    requires |data| > 2
    ensures |SextetsOfBytes(data)| == 4 + |SextetsOfBytes(data[3..])| && Padding(|data|) == Padding(|data[3..]|)
  {
    hide Four, Word;
    assert (|data| - 3) % 3 == |data| % 3;
  }

  lemma KnownAnswers()
    ensures Encode([77, 97, 110]) == "TWFu" && Encode([77, 97]) == "TWE=" && Encode([77]) == "TQ=="
  {
    assert Word(77, 97, 110) == 5071214 && Four(5071214) == [19, 22, 5, 46];
    assert Word(77, 97, 0) == 5071104 && Four(5071104) == [19, 22, 4, 0];
    assert Word(77, 0, 0) == 5046272 && Four(5046272) == [19, 16, 0, 0];
    assert [77, 97, 110][3..] == [];
  }
}
