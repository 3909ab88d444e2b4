/**
A terminal as the renderer assumes it: a grid, a cursor and two current colours, fed with
bytes. It understands cursor addressing, 24-bit colours and UTF-8 glyphs of one column;
control characters paint nothing.
*/
module Terminal {
  import opened Text
  import opened Utf8

  type U8 = x: int | 0 <= x < 256
  datatype Rgb = Rgb(r: U8, g: U8, b: U8)
  datatype Glyph = Glyph(ch: int, fg: Rgb, bg: Rgb)

  datatype Terminal = Terminal(
    grid: map<(int, int), Glyph>, row: int, col: int, fg: Rgb, bg: Rgb)

  const ESC: char := 27 as char

  predicate Printable(cp: int) {
    0x20 <= cp < CODE_POINTS && cp != 0x7F
  }

  // ---- Control sequences ----

  function Join(ns: seq<nat>): string
    requires ns != []
  {
    if |ns| == 1 then Decimal(ns[0]) else Decimal(ns[0]) + (";" + Join(ns[1..]))
  }

  function Csi(ns: seq<nat>, final: char): string
    requires ns != []
  {
    [ESC, '['] + (Join(ns) + [final])
  }

  predicate IsParam(c: char) {
    IsDigit(c) || c == ';'
  }

  function ParamRun(s: string): (k: nat)
    ensures k <= |s| && (k < |s| ==> !IsParam(s[k])) && forall i :: 0 <= i < k ==> IsParam(s[i])
  {
    if s == "" || !IsParam(s[0]) then 0 else 1 + ParamRun(s[1..])
  }

  // Numbers separated by semicolons; an empty field is 0.
  function ParamsOf(s: string): seq<nat> {
    var k := DigitRun(s);
    var n := DigitsValue(s[..k]);
    if k < |s| then [n] + ParamsOf(s[k + 1..]) else [n]
  }

  function ColourOf(ns: seq<nat>): Option<Rgb> {
    if |ns| == 5 && ns[1] == 2 && ns[2] < 256 && ns[3] < 256 && ns[4] < 256 then Some(Rgb(ns[2], ns[3], ns[4]))
    else None
  }

  function Obey(t: Terminal, ns: seq<nat>, final: char): Terminal {
    if final == 'H' && |ns| == 2 then t.(row := (ns[0] as int) - 1, col := (ns[1] as int) - 1)
    else if final == 'm' && ColourOf(ns).Some? && ns[0] == 38 then t.(fg := ColourOf(ns).value)
    else if final == 'm' && ColourOf(ns).Some? && ns[0] == 48 then t.(bg := ColourOf(ns).value)
    else t
  }

  function Put(t: Terminal, cp: int): Terminal {
    if !Printable(cp) then t
    else t.(grid := if (t.row, t.col) in t.grid
                    then t.grid[(t.row, t.col) := Glyph(cp, t.fg, t.bg)] else t.grid,
            col := t.col + 1)
  }

  // What the terminal becomes after receiving some bytes.
  function Feed(t: Terminal, s: string): Terminal
    requires Bytes(s)
    decreases |s|
  {
    if s == "" then t
    else if s[0] == ESC then
      if |s| >= 2 && s[1] == '[' then
        var k := ParamRun(s[2..]);
        if 2 + k >= |s| then t
        else Feed(Obey(t, ParamsOf(s[2..2 + k]), s[2 + k]), s[3 + k..])
      else Feed(t, s[1..])
    else
      var d := DecodeAt(s, 0);
      Feed(Put(t, d.cp), s[d.len..])
  }

  // ---- Reading back what was written ----

  lemma {:induction false} JoinIsParams(ns: seq<nat>)
    requires ns != []
    ensures forall i :: 0 <= i < |Join(ns)| ==> IsParam(Join(ns)[i])
    decreases |ns|
  {
    if |ns| > 1 {
      JoinIsParams(ns[1..]);
    }
  }

  lemma {:induction false} ParamRunExact(p: string, final: char, rest: string)
    requires (forall i :: 0 <= i < |p| ==> IsParam(p[i])) && !IsParam(final)
    ensures ParamRun(p + [final] + rest) == |p|
    decreases |p|
  {
    var s := p + [final] + rest;
    if p != "" {
      ParamRunExact(p[1..], final, rest);
      assert s[1..] == p[1..] + [final] + rest;
    }
  }

  lemma {:induction false} ParamsOfJoin(ns: seq<nat>)
    requires ns != []
    ensures ParamsOf(Join(ns)) == ns
    decreases |ns|
  {
    var ds := Decimal(ns[0]);
    DecimalValue(ns[0]);
    if |ns| == 1 {
      DigitRunExact(ds, "");
      assert ds + "" == ds && ds[..|ds|] == ds;
    } else {
      var rest := Join(ns[1..]);
      var s := ds + (";" + rest);
      DigitRunExact(ds, ";" + rest);
      assert s[..|ds|] == ds && s[|ds| + 1..] == rest;
      ParamsOfJoin(ns[1..]);
      assert [ns[0]] + ns[1..] == ns;
    }
  }

  lemma CsiIsBytes(ns: seq<nat>, final: char)
    requires ns != [] && final as int < 256
    ensures Bytes(Csi(ns, final))
  {
    JoinIsParams(ns);
    assert forall c: char :: IsParam(c) ==> c as int < 256;
  }

  // A control sequence is obeyed as it was meant, whatever follows.
  lemma FeedCsi(t: Terminal, ns: seq<nat>, final: char, rest: string)
    requires ns != [] && !IsParam(final) && final as int < 256 && Bytes(rest)
    ensures Bytes(Csi(ns, final) + rest)
    ensures Feed(t, Csi(ns, final) + rest) == Feed(Obey(t, ns, final), rest)
  {
    CsiIsBytes(ns, final);
    var p := Join(ns);
    var s := Csi(ns, final) + rest;
    CsiParts(p, final, rest);
    JoinIsParams(ns);
    ParamRunExact(p, final, rest);
    ParamsOfJoin(ns);
  }

  lemma CsiParts(p: string, final: char, rest: string)
    ensures var s := [ESC, '['] + (p + [final]) + rest;
            && s[0] == ESC && s[1] == '[' && s[2..] == p + [final] + rest
            && s[2..2 + |p|] == p && s[2 + |p|] == final && s[3 + |p|..] == rest
  {
  }

  lemma FeedGlyph(t: Terminal, cp: int, rest: string)
    requires 0 <= cp < CODE_POINTS && Bytes(rest)
    requires cp == ESC as int ==> rest == "" || rest[0] == ESC
    ensures Bytes(Encode(cp) + rest)
    ensures Feed(t, Encode(cp) + rest) == Feed(Put(t, cp), rest)
  {
    hide DecodeAt;
    var s := Encode(cp) + rest;
    DecodeEncoded("", cp, rest);
    assert "" + Encode(cp) + rest == s;
    assert s[|Encode(cp)|..] == rest;
    LeadByte(cp);
    if cp == ESC as int {
      assert s[1..] == rest && (|s| >= 2 ==> s[1] == rest[0]);
    }
  }

  lemma LeadByte(cp: int)
    requires 0 <= cp < CODE_POINTS
    ensures Encode(cp)[0] == ESC <==> cp == ESC as int
    ensures cp == ESC as int ==> Encode(cp) == [ESC]
  {
  }
}
