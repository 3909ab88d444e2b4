/**
The binary form of an agent card: length-prefixed strings written through a raw cursor into
a buffer of precomputed size, and read back with bounds checks. Strings are byte sequences;
the machine is little-endian.
*/
module AgentCard {
  import opened Text

  type Bytes = seq<Byte>

  const MAX_CAPABILITIES: nat := 10000

  // Schemas, authentication and identity are not part of the binary form.
  datatype Capability = Capability(name: Bytes, description: Bytes, inputSchema: Option<Bytes>)
  datatype Card = Card(
    name: Bytes, description: Bytes, url: Bytes, version: Bytes,
    capabilities: seq<Capability>, identityDid: Option<Bytes>)

  // ---- Encoding ----

  function U32Bytes(v: nat): (r: Bytes)
    requires v < U32
    ensures |r| == 4
  {
    [v % 256, v / 256 % 256, v / 65536 % 256, v / 16777216]
  }

  function U32Value(b: Bytes): (v: nat)
    requires |b| == 4
    ensures v < U32
  {
    var b0: int, b1: int, b2: int, b3: int := b[0], b[1], b[2], b[3];
    b0 + b1 * 256 + b2 * 65536 + b3 * 16777216
  }

  lemma U32RoundTrip(v: nat)
    requires v < U32
    ensures U32Value(U32Bytes(v)) == v
  {
    assert v == v / 256 * 256 + v % 256;
    assert v / 256 == v / 65536 * 256 + v / 256 % 256;
    assert v / 65536 == v / 16777216 * 256 + v / 65536 % 256;
  }

  // write_str: the length is cut to 32 bits, the data is not.
  function Str(s: Bytes): (r: Bytes)
    ensures |r| == 4 + |s|
  {
    U32Bytes(|s| % U32) + s
  }

  function CapsBytes(caps: seq<Capability>): Bytes {
    if caps == [] then []
    else CapsBytes(caps[..|caps| - 1]) + (Str(caps[|caps| - 1].name) + Str(caps[|caps| - 1].description))
  }

  function HeadBytes(c: Card): Bytes {
    Str(c.name) + Str(c.description) + Str(c.url) + Str(c.version) + U32Bytes(|c.capabilities| % U32)
  }

  function Encode(c: Card): Bytes {
    HeadBytes(c) + CapsBytes(c.capabilities)
  }

  function CapsSize(caps: seq<Capability>): nat {
    if caps == [] then 0
    else (4 + |caps[0].name|) + (4 + |caps[0].description|) + CapsSize(caps[1..])
  }

  method WriteU32(buf: array<Byte>, p: nat, v: nat) returns (next: nat)
    requires p + 4 <= buf.Length && v < U32
    modifies buf
    ensures next == p + 4 && buf[..next] == old(buf[..p]) + U32Bytes(v)
  {
    var b := U32Bytes(v);
    buf[p], buf[p + 1], buf[p + 2], buf[p + 3] := b[0], b[1], b[2], b[3];
    next := p + 4;
  }

  method WriteStr(buf: array<Byte>, p: nat, s: Bytes) returns (next: nat)
    requires p + 4 + |s| <= buf.Length
    modifies buf
    ensures next == p + 4 + |s| && buf[..next] == old(buf[..p]) + Str(s)
  {
    var q := WriteU32(buf, p, |s| % U32);
    ghost var written := buf[..q];
    forall i | 0 <= i < |s| {
      buf[q + i] := s[i];
    }
    next := q + |s|;
    assert buf[..next] == written + s;
  }

  // to_msgpack: the cursor ends exactly at the precomputed size.
  method ToMsgpack(c: Card) returns (buf: array<Byte>, p: nat)
    ensures fresh(buf) && buf[..] == Encode(c)
    ensures p == buf.Length == |HeadBytes(c)| + CapsSize(c.capabilities)
  {
    var total := (4 + |c.name|) + (4 + |c.description|) + (4 + |c.url|) + (4 + |c.version|) + 4;
    for n := 0 to |c.capabilities|
      invariant total + CapsSize(c.capabilities[n..]) == |HeadBytes(c)| + CapsSize(c.capabilities)
    {
      assert c.capabilities[n..][1..] == c.capabilities[n + 1..];
      total := total + (4 + |c.capabilities[n].name|) + (4 + |c.capabilities[n].description|);
    }
    buf := new Byte[total];
    p := WriteHead(c, buf);
    var caps := c.capabilities;
    for n := 0 to |caps|
      invariant p + CapsSize(caps[n..]) == buf.Length
      invariant buf[..p] == HeadBytes(c) + CapsBytes(caps[..n])
    {
      assert caps[n..][1..] == caps[n + 1..] && caps[..n + 1][..n] == caps[..n];
      ghost var before := buf[..p];
      p := WriteStr(buf, p, caps[n].name);
      p := WriteStr(buf, p, caps[n].description);
      Regroup(HeadBytes(c), CapsBytes(caps[..n]), Str(caps[n].name), Str(caps[n].description));
    }
    assert caps[..|caps|] == caps && buf[..p] == buf[..];
  }

  lemma Regroup(x: Bytes, y: Bytes, a: Bytes, b: Bytes)
    ensures x + y + a + b == x + (y + (a + b))
  {
  }

  method WriteHead(c: Card, buf: array<Byte>) returns (p: nat)
    requires |HeadBytes(c)| <= buf.Length
    modifies buf
    ensures p == |HeadBytes(c)| && buf[..p] == HeadBytes(c)
  {
    hide Str;
    p := WriteStr(buf, 0, c.name);
    p := WriteStr(buf, p, c.description);
    p := WriteStr(buf, p, c.url);
    p := WriteStr(buf, p, c.version);
    p := WriteU32(buf, p, |c.capabilities| % U32);
  }

  // ---- Decoding ----

  // A value and the position after it, or the exception's message.
  datatype Read<+T> = Good(value: T, next: nat) | Bad(message: string)

  // read_into: the length is compared with the rest of the buffer cut to 32 bits.
  function ReadStr(data: Bytes, p: nat): (r: Read<Bytes>)
    requires p <= |data|
    ensures r.Good? ==> p < r.next <= |data|
  {
    if |data| - p < 4 then Bad("msgpack: truncated string length")
    else
      var len := U32Value(data[p..p + 4]);
      var rest := |data| - (p + 4);
      if len > rest % U32 then Bad("msgpack: string length exceeds buffer")
      else Good(data[p + 4..p + 4 + len], p + 4 + len)
  }

  function ReadCaps(data: Bytes, p: nat, n: nat): (r: Read<seq<Capability>>)
    requires p <= |data|
    ensures r.Good? ==> p <= r.next <= |data|
    decreases n
  {
    if n == 0 then Good([], p)
    else match ReadStr(data, p)
      case Bad(m) => Bad(m)
      case Good(name, q) =>
        match ReadStr(data, q)
        case Bad(m) => Bad(m)
        case Good(description, q') =>
          match ReadCaps(data, q', n - 1)
          case Bad(m) => Bad(m)
          case Good(caps, end) => Good([Capability(name, description, None)] + caps, end)
  }

  function ReadCount(data: Bytes, p: nat): (r: Read<nat>)
    requires p <= |data|
    ensures r.Good? ==> r.next == p + 4 <= |data| && r.value <= MAX_CAPABILITIES
  {
    if |data| - p < 4 then Bad("msgpack: truncated capability count")
    else
      var n := U32Value(data[p..p + 4]);
      if n > MAX_CAPABILITIES then Bad("msgpack: unreasonable capability count") else Good(n, p + 4)
  }

  function ReadAfterHead(data: Bytes, name: Bytes, description: Bytes, url: Bytes, version: Bytes, p: nat): (r: Read<Card>)
    requires p <= |data|
    ensures r.Good? ==> r.next <= |data|
  {
    match ReadCount(data, p)
    case Bad(m) => Bad(m)
    case Good(n, q) =>
      match ReadCaps(data, q, n)
      case Bad(m) => Bad(m)
      case Good(caps, end) => Good(Card(name, description, url, version, caps, None), end)
  }

  // from_msgpack, with the position it stops at; bytes after it are ignored.
  function Decode(data: Bytes): (r: Read<Card>)
    ensures r.Good? ==> r.next <= |data|
  {
    match ReadStr(data, 0)
    case Bad(m) => Bad(m)
    case Good(name, a) =>
      match ReadStr(data, a)
      case Bad(m) => Bad(m)
      case Good(description, b) =>
        match ReadStr(data, b)
        case Bad(m) => Bad(m)
        case Good(url, c) =>
          match ReadStr(data, c)
          case Bad(m) => Bad(m)
          case Good(version, d) => ReadAfterHead(data, name, description, url, version, d)
  }

  method FromMsgpack(data: Bytes) returns (r: Read<Card>)
    ensures r == Decode(data)
  {
    hide ReadStr;
    var name := ReadStr(data, 0);
    if name.Bad? { return Bad(name.message); }
    var description := ReadStr(data, name.next);
    if description.Bad? { return Bad(description.message); }
    var url := ReadStr(data, description.next);
    if url.Bad? { return Bad(url.message); }
    var version := ReadStr(data, url.next);
    if version.Bad? { return Bad(version.message); }
    var count := ReadCount(data, version.next);
    if count.Bad? { return Bad(count.message); }
    var caps: seq<Capability>, p: nat := [], count.next;
    PrependNone(ReadCaps(data, p, count.value));
    for i := 0 to count.value
      invariant p <= |data|
      invariant ReadCaps(data, count.next, count.value) == Prepend(caps, ReadCaps(data, p, count.value - i))
    {
      var capName := ReadStr(data, p);
      if capName.Bad? { return Bad(capName.message); }
      var capDescription := ReadStr(data, capName.next);
      if capDescription.Bad? { return Bad(capDescription.message); }
      PrependOne(caps, Capability(capName.value, capDescription.value, None),
                 ReadCaps(data, capDescription.next, count.value - i - 1));
      caps := caps + [Capability(capName.value, capDescription.value, None)];
      p := capDescription.next;
    }
    assert caps + [] == caps;
    r := Good(Card(name.value, description.value, url.value, version.value, caps, None), p);
  }

  ghost function Prepend(caps: seq<Capability>, r: Read<seq<Capability>>): Read<seq<Capability>> {
    if r.Bad? then r else Good(caps + r.value, r.next)
  }

  lemma PrependNone(r: Read<seq<Capability>>)
    ensures Prepend([], r) == r
  {
    if r.Good? {
      assert [] + r.value == r.value;
    }
  }

  lemma PrependOne(caps: seq<Capability>, c: Capability, r: Read<seq<Capability>>)
    ensures Prepend(caps, Prepend([c], r)) == Prepend(caps + [c], r)
  {
    if r.Good? {
      assert caps + ([c] + r.value) == caps + [c] + r.value;
    }
  }

  // ---- Round trip ----

  // What the binary form keeps of a card.
  function Stripped(c: Card): Card {
    Card(c.name, c.description, c.url, c.version, StrippedCaps(c.capabilities), None)
  }

  function StrippedCaps(caps: seq<Capability>): (r: seq<Capability>)
    ensures |r| == |caps|
    ensures forall i :: 0 <= i < |r| ==> r[i] == Capability(caps[i].name, caps[i].description, None)
  {
    if caps == [] then []
    else [Capability(caps[0].name, caps[0].description, None)] + StrippedCaps(caps[1..])
  }

  // The bounds check of read_into admits a string of this size with so many bytes after it.
  predicate Fits(size: nat, rest: nat) {
    size <= (size + rest) % U32
  }

  lemma ReadStrBack(pre: Bytes, s: Bytes, rest: Bytes)
    ensures var r := ReadStr(pre + Str(s) + rest, |pre|);
            if Fits(|s|, |rest|) then r == Good(s, |pre + Str(s)|) else r.Bad? || r.value != s
  {
    var data := pre + Str(s) + rest;
    U32RoundTrip(|s| % U32);
    assert data == pre + U32Bytes(|s| % U32) + s + rest;
    assert data[|pre|..|pre| + 4] == U32Bytes(|s| % U32);
    if Fits(|s|, |rest|) {
      assert data[|pre| + 4..|pre| + 4 + |s|] == s;
    }
  }

  // The strings of a capability list, from the front.
  function CapsFront(caps: seq<Capability>): Bytes {
    if caps == [] then [] else Str(caps[0].name) + (Str(caps[0].description) + CapsFront(caps[1..]))
  }

  lemma {:induction false} CapsFrontAppend(caps: seq<Capability>, c: Capability)
    ensures CapsFront(caps + [c]) == CapsFront(caps) + (Str(c.name) + Str(c.description))
    decreases |caps|
  {
    hide Str;
    if caps == [] {
      assert (caps + [c])[1..] == [];
      assert Str(c.name) + (Str(c.description) + []) == Str(c.name) + Str(c.description);
    } else {
      CapsFrontAppend(caps[1..], c);
      assert (caps + [c])[1..] == caps[1..] + [c];
      Shift(Str(caps[0].name), Str(caps[0].description), CapsFront(caps[1..]), Str(c.name) + Str(c.description));
    }
  }

  lemma Shift(x: Bytes, y: Bytes, z: Bytes, w: Bytes)
    ensures x + (y + (z + w)) == x + (y + z) + w
  {
  }

  lemma {:induction false} CapsFrontIsCapsBytes(caps: seq<Capability>)
    ensures CapsBytes(caps) == CapsFront(caps)
    decreases |caps|
  {
    hide Str;
    if caps != [] {
      var k := |caps| - 1;
      CapsFrontIsCapsBytes(caps[..k]);
      CapsFrontAppend(caps[..k], caps[k]);
      assert caps[..k] + [caps[k]] == caps;
    }
  }

  predicate CapsFit(caps: seq<Capability>, rest: nat) {
    caps == [] ||
    (var after := |CapsFront(caps[1..])| + rest;
     && Fits(|caps[0].name|, 4 + |caps[0].description| + after)
     && Fits(|caps[0].description|, after)
     && CapsFit(caps[1..], rest))
  }

  lemma {:induction false} ReadCapsBack(pre: Bytes, caps: seq<Capability>, rest: Bytes)
    ensures var r := ReadCaps(pre + CapsFront(caps) + rest, |pre|, |caps|);
            if CapsFit(caps, |rest|) then r == Good(StrippedCaps(caps), |pre + CapsFront(caps)|)
            else r.Bad? || r.value != StrippedCaps(caps)
    decreases |caps|
  {
    hide Str, ReadStr, Fits;
    if caps == [] {
      assert pre + CapsFront(caps) == pre;
    } else {
      var a, b, front := Str(caps[0].name), Str(caps[0].description), CapsFront(caps[1..]);
      var data := pre + CapsFront(caps) + rest;
      CapSplit(pre, a, b, front, rest);
      ReadStrBack(pre, caps[0].name, b + (front + rest));
      ReadStrBack(pre + a, caps[0].description, front + rest);
      ReadCapsBack(pre + a + b, caps[1..], rest);
      if ReadCaps(data, |pre|, |caps|).Good? && ReadCaps(data, |pre|, |caps|).value == StrippedCaps(caps) {
        CapsDiffer(data, |pre|, |caps|, caps);
      }
    }
  }

  // A capability list read back as expected was read so string by string.
  lemma CapsDiffer(data: Bytes, p: nat, n: nat, caps: seq<Capability>)
    requires p <= |data| && 0 < n == |caps|
    requires ReadCaps(data, p, n).Good? && ReadCaps(data, p, n).value == StrippedCaps(caps)
    ensures var a := ReadStr(data, p);
            && a.Good? && a.value == caps[0].name
            && var b := ReadStr(data, a.next);
               && b.Good? && b.value == caps[0].description
               && ReadCaps(data, b.next, n - 1).Good?
               && ReadCaps(data, b.next, n - 1).value == StrippedCaps(caps[1..])
  {
    hide ReadStr;
    var a := ReadStr(data, p);
    var rest := ReadCaps(data, ReadStr(data, a.next).next, n - 1).value;
    assert ReadCaps(data, p, n).value[1..] == rest && StrippedCaps(caps)[1..] == StrippedCaps(caps[1..]);
  }

  lemma CapSplit(pre: Bytes, a: Bytes, b: Bytes, front: Bytes, rest: Bytes)
    ensures pre + (a + (b + front)) + rest == pre + a + (b + (front + rest))
    ensures pre + (a + (b + front)) + rest == pre + a + b + (front + rest)
    ensures pre + (a + (b + front)) + rest == pre + a + b + front + rest
    ensures pre + (a + (b + front)) == pre + a + b + front
  {
  }

  // The sizes a card may have for its encoding, with so many bytes after it, to be read back.
  predicate Decodable(c: Card, rest: nat) {
    var after := 4 + |CapsFront(c.capabilities)| + rest;
    && Fits(|c.name|, 12 + |c.description| + |c.url| + |c.version| + after)
    && Fits(|c.description|, 8 + |c.url| + |c.version| + after)
    && Fits(|c.url|, 4 + |c.version| + after)
    && Fits(|c.version|, after)
    && |c.capabilities| <= MAX_CAPABILITIES
    && CapsFit(c.capabilities, rest)
  }

  // Decoding restores exactly the encoded fields, whatever follows them, if and only if the
  // card is Decodable.
  lemma CardRoundTrip(c: Card, rest: Bytes)
    ensures Decode(Encode(c) + rest) == Good(Stripped(c), |Encode(c)|) <==> Decodable(c, |rest|)
  {
    hide Str, ReadStr, Fits, ReadAfterHead;
    var caps := c.capabilities;
    CapsFrontIsCapsBytes(caps);
    var front := CapsFront(caps);
    var n, d, u, v, k := Str(c.name), Str(c.description), Str(c.url), Str(c.version), U32Bytes(|caps| % U32);
    HeadSplit(n, d, u, v, k, front + rest);
    Assoc(n + d + u + v + k, front, rest);
    ReadStrBack([], c.name, d + (u + (v + (k + (front + rest)))));
    ReadStrBack(n, c.description, u + (v + (k + (front + rest))));
    ReadStrBack(n + d, c.url, v + (k + (front + rest)));
    ReadStrBack(n + d + u, c.version, k + (front + rest));
    TailBack(c, n + d + u + v, rest);
    if Decode(Encode(c) + rest).Good? {
      HeadKept(Encode(c) + rest);
    }
  }

  lemma TailBack(c: Card, pre: Bytes, rest: Bytes)
    ensures var caps := c.capabilities;
            var data := pre + (U32Bytes(|caps| % U32) + (CapsFront(caps) + rest));
            var r := ReadAfterHead(data, c.name, c.description, c.url, c.version, |pre|);
            if |caps| <= MAX_CAPABILITIES && CapsFit(caps, |rest|)
            then r == Good(Stripped(c), |pre| + 4 + |CapsFront(caps)|)
            else r.Bad? || r.value != Stripped(c)
  {
    hide CapsFit, CapsFront, Fits, Str, Stripped, StrippedCaps, ReadStr, ReadCaps, ReadCount, ReadAfterHead;
    hide U32Bytes, U32Value;
    var caps := c.capabilities;
    var k := U32Bytes(|caps| % U32);
    FiveSplit(pre, k, CapsFront(caps), rest);
    CountBack(pre, |caps|, CapsFront(caps) + rest);
    ReadCapsBack(pre + k, caps, rest);
    TailDecides(c, pre + (k + (CapsFront(caps) + rest)), |pre|, |caps| % U32,
                CapsFit(caps, |rest|), |pre| + 4 + |CapsFront(caps)|);
  }

  // The count and the list decide whether the rest of a card comes back.
  lemma TailDecides(c: Card, data: Bytes, p: nat, m: nat, fits: bool, end: nat)
    requires p + 4 <= |data| && m == |c.capabilities| % U32
    requires ReadCount(data, p) ==
             if m <= MAX_CAPABILITIES then Good(m, p + 4) else Bad("msgpack: unreasonable capability count")
    requires var r := ReadCaps(data, p + 4, |c.capabilities|);
             if fits then r == Good(StrippedCaps(c.capabilities), end)
             else r.Bad? || r.value != StrippedCaps(c.capabilities)
    ensures var r := ReadAfterHead(data, c.name, c.description, c.url, c.version, p);
            if |c.capabilities| <= MAX_CAPABILITIES && fits then r == Good(Stripped(c), end)
            else r.Bad? || r.value != Stripped(c)
  {
    hide ReadStr, ReadCaps, ReadCount, StrippedCaps;
    if |c.capabilities| < U32 {
      assert m == |c.capabilities|;
    } else if ReadCaps(data, p + 4, m).Good? {
      CountKept(data, p + 4, m);
      assert |ReadCaps(data, p + 4, m).value| != |StrippedCaps(c.capabilities)|;
    }
  }

  lemma {:induction false} CountKept(data: Bytes, p: nat, n: nat)
    requires p <= |data| && ReadCaps(data, p, n).Good?
    ensures |ReadCaps(data, p, n).value| == n
    decreases n
  {
    hide ReadStr;
    if n > 0 {
      CountKept(data, ReadStr(data, ReadStr(data, p).next).next, n - 1);
    }
  }

  // An accepted card holds the strings read first, in order.
  lemma HeadKept(data: Bytes)
    requires Decode(data).Good?
    ensures var c := Decode(data).value;
            var a := ReadStr(data, 0);
            && a.Good? && a.value == c.name
            && var b := ReadStr(data, a.next);
               && b.Good? && b.value == c.description
               && var u := ReadStr(data, b.next);
                  && u.Good? && u.value == c.url
                  && var v := ReadStr(data, u.next);
                     && v.Good? && v.value == c.version
                     && Decode(data) == ReadAfterHead(data, c.name, c.description, c.url, c.version, v.next)
  {
    hide ReadStr;
  }

  // Below 4 GiB the count alone decides, and its excess is what the error names.
  lemma SmallCardRoundTrip(c: Card, rest: Bytes)
    requires |Encode(c) + rest| < U32
    ensures Decode(Encode(c) + rest) ==
            if |c.capabilities| <= MAX_CAPABILITIES then Good(Stripped(c), |Encode(c)|)
            else Bad("msgpack: unreasonable capability count")
  {
    hide Decode, Encode;
    CardRoundTrip(c, rest);
    SmallSizes(c, rest);
    if |c.capabilities| > MAX_CAPABILITIES {
      TooMany(c, rest);
    }
  }

  lemma SmallSizes(c: Card, rest: Bytes)
    requires |Encode(c) + rest| < U32
    ensures Decodable(c, |rest|) <==> |c.capabilities| <= MAX_CAPABILITIES
    ensures |c.capabilities| < U32
  {
    hide Fits, CapsFit, Str, U32Bytes, CapsFront, CapsBytes;
    CapsFrontIsCapsBytes(c.capabilities);
    CapsCounted(c.capabilities);
    CapsSmall(c.capabilities, |rest|);
    var after := 4 + |CapsFront(c.capabilities)| + |rest|;
    FitsSmall(|c.name|, 12 + |c.description| + |c.url| + |c.version| + after);
    FitsSmall(|c.description|, 8 + |c.url| + |c.version| + after);
    FitsSmall(|c.url|, 4 + |c.version| + after);
    FitsSmall(|c.version|, after);
  }

  lemma FitsSmall(size: nat, rest: nat)
    requires size + rest < U32
    ensures Fits(size, rest)
  {
  }

  lemma TooMany(c: Card, rest: Bytes)
    requires |Encode(c) + rest| < U32 && MAX_CAPABILITIES < |c.capabilities|
    ensures Decode(Encode(c) + rest) == Bad("msgpack: unreasonable capability count")
  {
    SmallSizes(c, rest);
    hide Str, ReadStr, U32Bytes, ReadCaps, ReadCount, ReadAfterHead, CapsFront, CapsBytes, CapsFit, Decodable, Fits, Decode;
    var caps := c.capabilities;
    var head, k := Str(c.name) + Str(c.description) + Str(c.url) + Str(c.version), U32Bytes(|caps| % U32);
    FiveSplit(head, k, CapsBytes(caps), rest);
    HeadBack(c, k + (CapsBytes(caps) + rest));
    CountStops(c, head, CapsBytes(caps) + rest);
  }

  lemma CountStops(c: Card, pre: Bytes, rest: Bytes)
    requires MAX_CAPABILITIES < |c.capabilities| < U32
    ensures var data := pre + U32Bytes(|c.capabilities| % U32) + rest;
            ReadAfterHead(data, c.name, c.description, c.url, c.version, |pre|) ==
            Bad("msgpack: unreasonable capability count")
  {
    hide U32Bytes, ReadCount, ReadCaps;
    CountBack(pre, |c.capabilities|, rest);
  }

  lemma FiveSplit(head: Bytes, k: Bytes, caps: Bytes, rest: Bytes)
    ensures head + k + caps + rest == head + (k + (caps + rest))
    ensures head + k + caps + rest == head + k + (caps + rest)
  {
  }

  // The four strings at the front of a small card come back.
  lemma HeadBack(c: Card, rest: Bytes)
    requires |Str(c.name) + Str(c.description) + Str(c.url) + Str(c.version) + rest| < U32
    ensures var n, d, u, v := Str(c.name), Str(c.description), Str(c.url), Str(c.version);
            var data := n + d + u + v + rest;
            Decode(data) == ReadAfterHead(data, c.name, c.description, c.url, c.version, |n + d + u + v|)
  {
    hide Str, ReadStr, Fits, ReadAfterHead;
    var n, d, u, v := Str(c.name), Str(c.description), Str(c.url), Str(c.version);
    HeadSplit(n, d, u, v, rest, []);
    assert rest + [] == rest && n + d + u + v + rest + [] == n + d + u + v + rest;
    FitsSmall(|c.name|, |d + (u + (v + rest))|);
    FitsSmall(|c.description|, |u + (v + rest)|);
    FitsSmall(|c.url|, |v + rest|);
    FitsSmall(|c.version|, |rest|);
    ReadStrBack([], c.name, d + (u + (v + rest)));
    ReadStrBack(n, c.description, u + (v + rest));
    ReadStrBack(n + d, c.url, v + rest);
    ReadStrBack(n + d + u, c.version, rest);
  }

  lemma {:induction false} CapsSmall(caps: seq<Capability>, rest: nat)
    requires |CapsFront(caps)| + rest < U32
    ensures CapsFit(caps, rest)
    decreases |caps|
  {
    hide Fits, Str;
    if caps != [] {
      var after := |CapsFront(caps[1..])| + rest;
      FitsSmall(|caps[0].name|, 4 + |caps[0].description| + after);
      FitsSmall(|caps[0].description|, after);
      CapsSmall(caps[1..], rest);
    }
  }

  lemma HeadSplit(n: Bytes, d: Bytes, u: Bytes, v: Bytes, k: Bytes, rest: Bytes)
    ensures var data := n + d + u + v + k + rest;
            && data == [] + n + (d + (u + (v + (k + rest)))) && [] + n == n
            && data == n + d + (u + (v + (k + rest)))
            && data == n + d + u + (v + (k + rest))
            && data == n + d + u + v + (k + rest)
  {
  }

  lemma CountBack(pre: Bytes, n: nat, rest: Bytes)
    ensures ReadCount(pre + U32Bytes(n % U32) + rest, |pre|) ==
            if n % U32 <= MAX_CAPABILITIES then Good(n % U32, |pre| + 4)
            else Bad("msgpack: unreasonable capability count")
  {
    U32RoundTrip(n % U32);
    var data := pre + U32Bytes(n % U32) + rest;
    assert data[|pre|..|pre| + 4] == U32Bytes(n % U32);
  }

  lemma {:induction false} CapsCounted(caps: seq<Capability>)
    ensures |caps| <= |CapsFront(caps)|
    decreases |caps|
  {
    if caps != [] {
      CapsCounted(caps[1..]);
    }
  }

  // ---- Truncated and extended data ----

  // What a prefix of the data decides, the data itself decides in the same way; only beyond
  // 4 GiB may it be refused instead.
  ghost predicate Agree<T(!new)>(part: Read<T>, whole: Read<T>, size: nat) {
    part.Good? ==> whole == part || (whole.Bad? && size >= U32)
  }

  lemma StrAgrees(data: Bytes, k: nat, p: nat)
    requires p <= k <= |data|
    ensures Agree(ReadStr(data[..k], p), ReadStr(data, p), |data|)
  {
    if k - p >= 4 {
      assert data[..k][p..p + 4] == data[p..p + 4];
      var r := ReadStr(data[..k], p);
      if r.Good? {
        assert data[..k][p + 4..r.next] == data[p + 4..r.next];
      }
    }
  }

  lemma {:induction false} CapsAgree(data: Bytes, k: nat, p: nat, n: nat)
    requires p <= k <= |data|
    ensures Agree(ReadCaps(data[..k], p, n), ReadCaps(data, p, n), |data|)
    decreases n
  {
    hide ReadStr;
    if n > 0 {
      var a := ReadStr(data[..k], p);
      StrAgrees(data, k, p);
      if a.Good? {
        var b := ReadStr(data[..k], a.next);
        StrAgrees(data, k, a.next);
        if b.Good? {
          CapsAgree(data, k, b.next, n - 1);
        }
      }
    }
  }

  lemma TailAgrees(data: Bytes, k: nat, c: Card, p: nat)
    requires p <= k <= |data|
    ensures Agree(ReadAfterHead(data[..k], c.name, c.description, c.url, c.version, p),
                  ReadAfterHead(data, c.name, c.description, c.url, c.version, p), |data|)
  {
    hide ReadStr, ReadCaps;
    if k - p >= 4 {
      assert data[..k][p..p + 4] == data[p..p + 4];
      CapsAgree(data, k, p + 4, U32Value(data[p..p + 4]));
    }
  }

  // Bytes after an accepted card change nothing.
  lemma TrailingBytesIgnored(data: Bytes, k: nat)
    requires k <= |data|
    ensures Agree(Decode(data[..k]), Decode(data), |data|)
  {
    hide ReadStr, ReadAfterHead;
    if Decode(data[..k]).Good? {
      HeadKept(data[..k]);
      var a := ReadStr(data[..k], 0);
      var b := ReadStr(data[..k], a.next);
      var c := ReadStr(data[..k], b.next);
      var d := ReadStr(data[..k], c.next);
      StrAgrees(data, k, 0);
      StrAgrees(data, k, a.next);
      StrAgrees(data, k, b.next);
      StrAgrees(data, k, c.next);
      TailAgrees(data, k, Decode(data[..k]).value, d.next);
    }
  }

  // No 32-bit cast of the encoder cuts a size: not the total, only the parts are bounded.
  predicate Uncut(c: Card) {
    && |c.name| < U32 && |c.description| < U32 && |c.url| < U32 && |c.version| < U32
    && CapsUncut(c.capabilities)
  }

  predicate CapsUncut(caps: seq<Capability>) {
    |caps| < U32 && forall i :: 0 <= i < |caps| ==> |caps[i].name| < U32 && |caps[i].description| < U32
  }

  // A string read from a prefix of an encoding is the one that was written, and all of it.
  lemma StrOfPrefix(pre: Bytes, s: Bytes, rest: Bytes, k: nat)
    requires |s| < U32 && |pre| <= k <= |pre + Str(s) + rest|
    ensures var r := ReadStr((pre + Str(s) + rest)[..k], |pre|);
            r.Good? ==> r == Good(s, |pre + Str(s)|)
  {
    hide U32Bytes, U32Value;
    var size := U32Bytes(|s|);
    Middle(pre, size, s, rest);
    if k - |pre| >= 4 {
      U32RoundTrip(|s|);
      Slice(pre, size, s + rest, k);
      if |pre| + 4 + |s| <= k {
        Slice(pre + size, s, rest, k);
      }
    }
  }

  lemma Middle(pre: Bytes, size: Bytes, s: Bytes, rest: Bytes)
    ensures pre + (size + s) + rest == pre + size + (s + rest) == pre + size + s + rest
  {
  }

  lemma Slice(pre: Bytes, mid: Bytes, post: Bytes, k: nat)
    requires |pre| + |mid| <= k <= |pre + mid + post|
    ensures (pre + mid + post)[..k][|pre|..|pre| + |mid|] == mid
  {
  }

  lemma {:induction false} CapsOfPrefix(pre: Bytes, caps: seq<Capability>, k: nat)
    requires CapsUncut(caps) && |pre| <= k <= |pre + CapsFront(caps)|
    ensures var r := ReadCaps((pre + CapsFront(caps))[..k], |pre|, |caps|);
            r.Good? ==> r.next == |pre + CapsFront(caps)|
    decreases |caps|
  {
    hide Str, ReadStr;
    if caps != [] {
      var a, b, front := Str(caps[0].name), Str(caps[0].description), CapsFront(caps[1..]);
      CapSplit(pre, a, b, front, []);
      assert pre + CapsFront(caps) + [] == pre + CapsFront(caps) && front + [] == front;
      assert pre + a + b + front + [] == pre + a + b + front;
      StrOfPrefix(pre, caps[0].name, b + front, k);
      if |pre + a| <= k {
        StrOfPrefix(pre + a, caps[0].description, front, k);
        if |pre + a + b| <= k {
          CapsOfPrefix(pre + a + b, caps[1..], k);
        }
      }
    }
  }

  lemma CountOfPrefix(pre: Bytes, n: nat, rest: Bytes, k: nat)
    requires n < U32 && |pre| <= k <= |pre + U32Bytes(n) + rest|
    ensures var r := ReadCount((pre + U32Bytes(n) + rest)[..k], |pre|);
            r.Good? ==> r.value == n
  {
    if k - |pre| >= 4 {
      U32RoundTrip(n);
      Slice(pre, U32Bytes(n), rest, k);
    }
  }

  lemma TailOfPrefix(pre: Bytes, c: Card, k: nat)
    requires CapsUncut(c.capabilities)
    requires |pre| <= k <= |pre + (U32Bytes(|c.capabilities|) + CapsFront(c.capabilities))|
    ensures var data := pre + (U32Bytes(|c.capabilities|) + CapsFront(c.capabilities));
            var r := ReadAfterHead(data[..k], c.name, c.description, c.url, c.version, |pre|);
            r.Good? ==> r.next == |data|
  {
    hide ReadCount, ReadCaps, U32Bytes, CapsFront;
    var n, front := U32Bytes(|c.capabilities|), CapsFront(c.capabilities);
    Assoc(pre, n, front);
    CountOfPrefix(pre, |c.capabilities|, front, k);
    if |pre + n| <= k {
      CapsOfPrefix(pre + n, c.capabilities, k);
    }
  }

  // While no size is cut, a prefix of an encoding that is accepted is all of it.
  lemma AcceptedPrefixIsWhole(c: Card, k: nat)
    requires Uncut(c) && k <= |Encode(c)|
    ensures Decode(Encode(c)[..k]).Good? ==> k == |Encode(c)|
  {
    hide Str, ReadStr, ReadAfterHead, U32Bytes, CapsFront, CapsUncut;
    CapsFrontIsCapsBytes(c.capabilities);
    UncutCount(c.capabilities);
    var n, d, u, v := Str(c.name), Str(c.description), Str(c.url), Str(c.version);
    var tail := U32Bytes(|c.capabilities|) + CapsFront(c.capabilities);
    Assoc(n + d + u + v, U32Bytes(|c.capabilities|), CapsFront(c.capabilities));
    HeadSplit(n, d, u, v, tail, []);
    assert tail + [] == tail && n + d + u + v + tail + [] == n + d + u + v + tail;
    StrOfPrefix([], c.name, d + (u + (v + tail)), k);
    if |n| <= k {
      StrOfPrefix(n, c.description, u + (v + tail), k);
      if |n + d| <= k {
        StrOfPrefix(n + d, c.url, v + tail, k);
        if |n + d + u| <= k {
          StrOfPrefix(n + d + u, c.version, tail, k);
          if |n + d + u + v| <= k {
            TailOfPrefix(n + d + u + v, c, k);
          }
        }
      }
    }
  }

  lemma UncutCount(caps: seq<Capability>)
    requires CapsUncut(caps)
    ensures |caps| % U32 == |caps|
  {
  }

  // So every strict prefix of an encoding is rejected, whatever its total size.
  lemma EncodingPrefixesRejected(card: Card, k: nat)
    requires Uncut(card) && k < |Encode(card)|
    ensures Decode(Encode(card)[..k]).Bad?
  {
    hide Encode, Decode, Uncut;
    AcceptedPrefixIsWhole(card, k);
  }

  // Where a size is cut one may be accepted: a name of 2^32 zero bytes has the length prefix 0, and
  // twenty zero bytes are an empty card.
  function HugeCard(): Card {
    Card(seq(U32, _ => 0), [], [], [], [], None)
  }

  lemma HugeCardPrefixAccepted()
    ensures 20 < |Encode(HugeCard())|
    ensures Decode(Encode(HugeCard())[..20]) == Good(Card([], [], [], [], [], None), 20)
  {
    hide Decode;
    var name := HugeCard().name;
    var start := Encode(HugeCard())[..20];
    assert start == Str(name)[..20] == U32Bytes(0) + name[..16];
    assert forall i :: 0 <= i < 20 ==> start[i] == 0;
    ZerosAreAnEmptyCard(start);
  }

  lemma ZerosAreAnEmptyCard(data: Bytes)
    requires |data| == 20 && forall i :: 0 <= i < 20 ==> data[i] == 0
    ensures Decode(data) == Good(Card([], [], [], [], [], None), 20)
  {
    hide ReadStr, U32Value;
    ZeroStr(data, 0);
    ZeroStr(data, 4);
    ZeroStr(data, 8);
    ZeroStr(data, 12);
    ZeroStr(data, 16);
  }

  lemma ZeroStr(data: Bytes, p: nat)
    requires p + 4 <= |data| && forall i :: p <= i < p + 4 ==> data[i] == 0
    ensures U32Value(data[p..p + 4]) == 0
    ensures ReadStr(data, p) == Good([], p + 4)
  {
    var four := data[p..p + 4];
    assert forall i :: 0 <= i < 4 ==> four[i] == data[p + i] == 0;
    assert data[p + 4..p + 4] == [];
  }

  // ---- Too many capabilities ----

  function CrowdedCard(): Card {
    Card([], [], [], [], seq(10001, _ => Capability([], [], None)), None)
  }

  lemma {:induction false} EmptyCapsSize(caps: seq<Capability>)
    requires forall i :: 0 <= i < |caps| ==> caps[i].name == [] && caps[i].description == []
    ensures |CapsBytes(caps)| == 8 * |caps|
    decreases |caps|
  {
    if caps != [] {
      EmptyCapsSize(caps[..|caps| - 1]);
    }
  }

  // A card the encoder takes and the decoder refuses.
  lemma CrowdedCardRefused()
    ensures Decode(Encode(CrowdedCard())) == Bad("msgpack: unreasonable capability count")
  {
    hide Decode;
    var c := CrowdedCard();
    EmptyCapsSize(c.capabilities);
    assert Encode(c) + [] == Encode(c);
    SmallCardRoundTrip(c, []);
  }

  // ---- The layout on one card ----

  lemma OneByte(b: Byte)
    ensures Str([b]) == [1, 0, 0, 0, b]
  {
  }

  // Fields in the order name, description, url, version, then the count and each capability.
  lemma KnownEncoding(a: Byte, b: Byte, c: Byte, d: Byte, e: Byte, f: Byte)
    ensures var card := Card([a], [b], [c], [d], [Capability([e], [f], None)], None);
            Encode(card) == [1, 0, 0, 0, a, 1, 0, 0, 0, b, 1, 0, 0, 0, c, 1, 0, 0, 0, d,
                             1, 0, 0, 0, 1, 0, 0, 0, e, 1, 0, 0, 0, f]
  {
    var card := Card([a], [b], [c], [d], [Capability([e], [f], None)], None);
    KnownHead(card, a, b, c, d);
    KnownCapability(e, f);
    hide HeadBytes, CapsBytes;
  }

  lemma KnownHead(card: Card, a: Byte, b: Byte, c: Byte, d: Byte)
    requires card.name == [a] && card.description == [b] && card.url == [c] && card.version == [d]
    requires |card.capabilities| == 1
    ensures HeadBytes(card) ==
            [1, 0, 0, 0, a, 1, 0, 0, 0, b, 1, 0, 0, 0, c, 1, 0, 0, 0, d, 1, 0, 0, 0]
  {
    OneByte(a);
    OneByte(b);
    OneByte(c);
    OneByte(d);
    assert U32Bytes(1) == [1, 0, 0, 0];
    hide Str, U32Bytes;
  }

  lemma KnownCapability(e: Byte, f: Byte)
    ensures CapsBytes([Capability([e], [f], None)]) == [1, 0, 0, 0, e, 1, 0, 0, 0, f]
  {
    OneByte(e);
    OneByte(f);
    hide Str;
    var cap := Capability([e], [f], None);
    assert [cap][..0] == [] && CapsBytes([cap]) == [] + (Str([e]) + Str([f]));
  }

  // ---- How short data is refused ----

  // Data too short for a length, for the string a length announces, or for the count.
  lemma ShortDataRefused(data: Bytes, n: nat, rest: Bytes)
    ensures |data| < 4 ==> Decode(data) == Bad("msgpack: truncated string length")
    ensures |rest| < n < U32 ==> Decode(U32Bytes(n) + rest) == Bad("msgpack: string length exceeds buffer")
    ensures |data| < 4 ==>
            Decode(Str([]) + Str([]) + Str([]) + Str([]) + data) == Bad("msgpack: truncated capability count")
  {
    if |rest| < n < U32 {
      U32RoundTrip(n);
      assert (U32Bytes(n) + rest)[0..4] == U32Bytes(n);
    }
    if |data| < 4 {
      EmptyHead(data);
    }
  }

  lemma EmptyHead(data: Bytes)
    requires |data| < 4
    ensures Decode(Str([]) + Str([]) + Str([]) + Str([]) + data) == Bad("msgpack: truncated capability count")
  {
    var all := Str([]) + Str([]) + Str([]) + Str([]) + data;
    EmptyAt(all, 0);
    EmptyAt(all, 4);
    EmptyAt(all, 8);
    EmptyAt(all, 12);
    hide ReadStr, U32Bytes, U32Value;
  }

  lemma EmptyAt(data: Bytes, p: nat)
    requires p + 4 <= |data| && data[p..p + 4] == U32Bytes(0)
    ensures ReadStr(data, p) == Good([], p + 4)
  {
    U32RoundTrip(0);
    assert data[p + 4..p + 4] == [];
  }
}
