/**
Where text written to the screen lands: every character of every line, with wrapping at the right
edge, the bottom of the screen and embedded colours.
*/
module ScreenText {
  import opened Text
  import opened Utf8
  import opened Terminal
  import opened Screen

  // ---- Text made of characters, line breaks and colour changes ----

  // Skip is any other sequence up to its final m: bold, background and the like.
  datatype Token = Ink(cp: int) | Break | Paint(colour: Rgb) | Reset | Skip(sgr: string)

  predicate Writable(t: Token) {
    && (t.Ink? ==> 0 <= t.cp < CODE_POINTS && t.cp != '\n' as int && t.cp != ESC as int)
    && (t.Skip? ==> Bytes(t.sgr) && 'm' !in t.sgr && t.sgr != "0" && !("38;2;" <= t.sgr))
  }

  predicate AllWritable(ts: seq<Token>) {
    forall k :: 0 <= k < |ts| ==> Writable(ts[k])
  }

  function TokenBytes(t: Token): string
    requires Writable(t)
  {
    match t
    case Ink(cp) => Encode(cp)
    case Break => "\n"
    case Paint(c) => Csi([38, 2, c.r, c.g, c.b], 'm')
    case Reset => Csi([0], 'm')
    case Skip(sgr) => Sequence(sgr)
  }

  function Sequence(sgr: string): string {
    [ESC, '['] + (sgr + "m")
  }

  function TextOf(ts: seq<Token>): string
    requires AllWritable(ts)
  {
    if ts == [] then "" else TokenBytes(ts[0]) + TextOf(ts[1..])
  }

  lemma TokenIsBytes(t: Token)
    requires Writable(t)
    ensures Bytes(TokenBytes(t)) && TokenBytes(t) != ""
  {
    match t
    case Ink(cp) => EncodeIsBytes(cp);
    case Break =>
    case Paint(c) => CsiIsBytes([38, 2, c.r, c.g, c.b], 'm');
    case Reset => CsiIsBytes([0], 'm');
    case Skip(_) =>
  }

  lemma {:induction false} TextIsBytes(ts: seq<Token>)
    requires AllWritable(ts)
    ensures Bytes(TextOf(ts))
    decreases |ts|
  {
    hide TokenBytes;
    if ts != [] {
      TokenIsBytes(ts[0]);
      TextIsBytes(ts[1..]);
    }
  }

  // ---- Where a token belongs ----

  // What write_text is called with, and how many columns a line has from x to the right edge.
  datatype Sheet = Sheet(x: int, y: int, columns: nat, fg: Rgb)

  // Rows taken by a line of n characters; an empty line takes one.
  function Rows(sheet: Sheet, n: nat): int
    requires sheet.columns > 0
  {
    if n == 0 then 1 else (n - 1) / sheet.columns + 1
  }

  // The row on which the line of the k-th token starts.
  function Line(sheet: Sheet, ts: seq<Token>, k: nat): int
    requires sheet.columns > 0 && k <= |ts|
  {
    if k == 0 then sheet.y
    else if ts[k - 1].Break? then Line(sheet, ts, k - 1) + Rows(sheet, Nth(sheet, ts, k - 1))
    else Line(sheet, ts, k - 1)
  }

  // How many characters precede it on that line. Above the screen characters take no room.
  function Nth(sheet: Sheet, ts: seq<Token>, k: nat): nat
    requires sheet.columns > 0 && k <= |ts|
  {
    if k == 0 || ts[k - 1].Break? then 0
    else if ts[k - 1].Ink? && Line(sheet, ts, k - 1) >= 0 then Nth(sheet, ts, k - 1) + 1
    else Nth(sheet, ts, k - 1)
  }

  // The colour in force: the last one set since the last reset.
  function Hue(sheet: Sheet, ts: seq<Token>, k: nat): Rgb
    requires k <= |ts|
  {
    if k == 0 || ts[k - 1].Reset? then sheet.fg
    else if ts[k - 1].Paint? then ts[k - 1].colour
    else Hue(sheet, ts, k - 1)
  }

  function Column(sheet: Sheet, ts: seq<Token>, k: nat): int
    requires sheet.columns > 0 && k <= |ts|
  {
    sheet.x + Nth(sheet, ts, k) % sheet.columns
  }

  function Row(sheet: Sheet, ts: seq<Token>, k: nat): int
    requires sheet.columns > 0 && k <= |ts|
  {
    Line(sheet, ts, k) + Nth(sheet, ts, k) / sheet.columns
  }

  // ---- Different characters go to different places ----

  lemma DivStep(n: nat, m: nat)
    requires m > 0
    ensures n % m + 1 < m ==> (n + 1) / m == n / m && (n + 1) % m == n % m + 1
    ensures n % m + 1 == m ==> (n + 1) / m == n / m + 1 && (n + 1) % m == 0
  {
    var q, r := n / m, n % m;
    assert n + 1 == q * m + (r + 1);
    if r + 1 < m {
      DivUnique(n + 1, m, q, r + 1);
    } else {
      assert n + 1 == (q + 1) * m + 0;
      DivUnique(n + 1, m, q + 1, 0);
    }
  }

  lemma DivUnique(n: nat, m: nat, q: nat, r: nat)
    requires m > 0 && r < m && n == q * m + r
    ensures n / m == q && n % m == r
  {
    assert n == n / m * m + n % m;
    SameQuotient(q, r, n / m, n % m, m);
  }

  lemma SameQuotient(q: nat, r: nat, q': nat, r': nat, m: nat)
    requires r < m && r' < m && q * m + r == q' * m + r'
    ensures q == q' && r == r'
  {
    if q < q' {
      MulGap(q, q', m);
    } else if q' < q {
      MulGap(q', q, m);
    }
  }

  lemma {:induction false} MulGap(a: nat, b: nat, m: nat)
    requires a < b
    ensures a * m + m <= b * m
  {
    assert b * m == (b - 1) * m + m;
    if a < b - 1 {
      MulGap(a, b - 1, m);
    }
  }

  // Reading order: further down, or on the same row further right.
  predicate Comes(sheet: Sheet, ts: seq<Token>, j: nat, k: nat)
    requires sheet.columns > 0 && j <= |ts| && k <= |ts|
  {
    Row(sheet, ts, j) < Row(sheet, ts, k) ||
    (Row(sheet, ts, j) == Row(sheet, ts, k) && Column(sheet, ts, j) < Column(sheet, ts, k))
  }

  predicate SamePlace(sheet: Sheet, ts: seq<Token>, j: nat, k: nat)
    requires sheet.columns > 0 && j <= |ts| && k <= |ts|
  {
    Row(sheet, ts, j) == Row(sheet, ts, k) && Column(sheet, ts, j) == Column(sheet, ts, k)
  }

  lemma NextPlace(sheet: Sheet, ts: seq<Token>, k: nat)
    requires sheet.columns > 0 && k < |ts| && Line(sheet, ts, k) >= 0
    ensures Line(sheet, ts, k + 1) >= 0
    ensures ts[k].Ink? ==> Comes(sheet, ts, k, k + 1)
    ensures Comes(sheet, ts, k, k + 1) || SamePlace(sheet, ts, k, k + 1)
  {
    var n, m := Nth(sheet, ts, k), sheet.columns;
    DivStep(n, m);
    if ts[k].Break? && n > 0 {
      DivStep(n - 1, m);
    }
  }

  lemma {:induction false} ReadingOrder(sheet: Sheet, ts: seq<Token>, j: nat, k: nat)
    requires sheet.columns > 0 && j < k <= |ts| && ts[j].Ink? && Line(sheet, ts, j) >= 0
    ensures Comes(sheet, ts, j, k) && Line(sheet, ts, k) >= 0
    decreases k
  {
    hide Row, Column;
    if k == j + 1 {
      NextPlace(sheet, ts, j);
    } else {
      ReadingOrder(sheet, ts, j, k - 1);
      NextPlace(sheet, ts, k - 1);
    }
  }

  // ---- One turn of the loop per token ----

  // Where the pen stands before the k-th token: after a full row it has not wrapped yet.
  function PenAt(sheet: Sheet, ts: seq<Token>, k: nat): Pen
    requires sheet.columns > 0 && k <= |ts|
  {
    var n, line, fg := Nth(sheet, ts, k), Line(sheet, ts, k), Hue(sheet, ts, k);
    if n == 0 then Pen(sheet.x, line, fg)
    else Pen(sheet.x + (n - 1) % sheet.columns + 1, line + (n - 1) / sheet.columns, fg)
  }

  // The cell a character becomes.
  function InkCell(sheet: Sheet, ts: seq<Token>, k: nat, style: Style): Cell
    requires k < |ts| && ts[k].Ink?
  {
    Cell(ts[k].cp, Hue(sheet, ts, k), style.bg, style.bold)
  }

  // A character goes to its place, if that is not below the screen.
  lemma InkPlace(s: Screen, sheet: Sheet, style: Style, ts: seq<Token>, k: nat)
    requires s.width == sheet.x + sheet.columns && sheet.columns > 0 && style.x == sheet.x
    requires k < |ts| && ts[k].Ink? && Writable(ts[k])
    ensures var row, col := Row(sheet, ts, k), Column(sheet, ts, k);
            PlaceOf(s, style, PenAt(sheet, ts, k), ts[k].cp) ==
            if row >= s.height then None else Some((row >= 0, col, PenAt(sheet, ts, k + 1)))
  {
    WrapsWhenFull(sheet, ts, k);
    AfterInk(sheet, ts, k);
    hide Row, Column, PenAt, Hue;
  }

  // Wrapping at the right edge, where the pen is full, brings it to the token's place.
  lemma WrapsWhenFull(sheet: Sheet, ts: seq<Token>, k: nat)
    requires sheet.columns > 0 && k <= |ts|
    ensures var pen := PenAt(sheet, ts, k);
            if pen.cx >= sheet.x + sheet.columns
            then Column(sheet, ts, k) == sheet.x && Row(sheet, ts, k) == pen.cy + 1
            else Column(sheet, ts, k) == pen.cx && Row(sheet, ts, k) == pen.cy
  {
    var n := Nth(sheet, ts, k);
    hide Line, Nth, Hue;
    FullRow(n, sheet.columns);
  }

  lemma FullRow(n: nat, m: nat)
    requires m > 0
    ensures n == 0 ==> n % m == 0 && n / m == 0
    ensures n > 0 ==> if (n - 1) % m + 1 >= m then n % m == 0 && n / m == (n - 1) / m + 1
                      else n % m == (n - 1) % m + 1 && n / m == (n - 1) / m
  {
    if n == 0 {
      DivUnique(0, m, 0, 0);
    } else {
      var before: nat := n - 1;
      DivStep(before, m);
      assert before + 1 == n;
    }
  }

  lemma AfterInk(sheet: Sheet, ts: seq<Token>, k: nat)
    requires sheet.columns > 0 && k < |ts| && ts[k].Ink?
    ensures PenAt(sheet, ts, k + 1) ==
            if Row(sheet, ts, k) >= 0
            then Pen(Column(sheet, ts, k) + 1, Row(sheet, ts, k), Hue(sheet, ts, k))
            else PenAt(sheet, ts, k)
    ensures Row(sheet, ts, k) < 0 ==> PenAt(sheet, ts, k) == Pen(sheet.x, Row(sheet, ts, k), Hue(sheet, ts, k))
  {
    if Line(sheet, ts, k) < 0 {
      AboveTakesNoRoom(sheet, ts, k);
    }
  }

  lemma {:induction false} AboveTakesNoRoom(sheet: Sheet, ts: seq<Token>, k: nat)
    requires sheet.columns > 0 && k <= |ts| && Line(sheet, ts, k) < 0
    ensures Nth(sheet, ts, k) == 0
  {
    if k > 0 {
      if !ts[k - 1].Break? {
        AboveTakesNoRoom(sheet, ts, k - 1);
      }
    }
  }

  lemma BreakPlace(s: Screen, sheet: Sheet, style: Style, ts: seq<Token>, k: nat)
    requires sheet.columns > 0 && style.x == sheet.x && k < |ts| && ts[k].Break?
    ensures var pen := PenAt(sheet, ts, k);
            PlaceOf(s, style, pen, '\n' as int) == Some((false, pen.cx, PenAt(sheet, ts, k + 1)))
  {
  }

  // One turn of the loop over a character that is drawn or skipped.
  lemma WriteStep(s: Screen, style: Style, pen: Pen, text: string, i: nat, cp: int, len: nat)
    requires s.Sized() && Bytes(text) && i < |text| && EscapeEnd(text, i) == None
    requires DecodeAt(text, i) == Decoded(cp, len)
    ensures i + len <= |text|
    ensures var place := PlaceOf(s, style, pen, cp);
            WriteFrom(s, style, pen, text, i) ==
            if place.None? then s
            else
              var (draws, cx, pen') := place.value;
              WriteFrom(DrawAt(s, draws, cx, pen'.cy, Cell(cp, pen.fg, style.bg, style.bold)), style, pen', text, i + len)
  {
    hide DecodeAt, EscapeEnd, PlaceOf, DrawAt;
  }

  lemma WriteEscape(s: Screen, style: Style, pen: Pen, text: string, i: nat, end: nat)
    requires s.Sized() && Bytes(text) && i < |text| && EscapeEnd(text, i) == Some(end)
    ensures WriteFrom(s, style, pen, text, i) ==
            WriteFrom(s, style, pen.(fg := ColourAfter(text[i + 2..end], pen.fg, style.fg)), text, end + 1)
  {
    hide DecodeAt, EscapeEnd, PlaceOf, DrawAt, ColourAfter;
  }

  lemma NotAnEscape(pre: string, cp: int, rest: string)
    requires 0 <= cp < CODE_POINTS && cp != ESC as int
    ensures EscapeEnd(pre + Encode(cp) + rest, |pre|) == None
  {
    LeadByte(cp);
  }

  // ---- Colour sequences are understood ----

  function Signed(n: int): string {
    if n < 0 then "-" + Decimal(-n) else Decimal(n)
  }

  lemma ScanPlain(n: nat, rest: string)
    requires rest == "" || !IsDigit(rest[0])
    ensures ScanInt(Decimal(n) + rest) == Some((n, rest))
  {
    var ds := Decimal(n);
    var t := ds + rest;
    assert IsDigit(t[0]) && SkipSpace(t) == t;
    DigitRunExact(ds, rest);
    DecimalValue(n);
    assert t[..|ds|] == ds && t[|ds|..] == rest;
  }

  lemma ScanMinus(n: nat, rest: string)
    requires rest == "" || !IsDigit(rest[0])
    ensures ScanInt("-" + Decimal(n) + rest) == Some((0 - (n as int), rest))
  {
    var ds := Decimal(n);
    var t := "-" + ds + rest;
    assert t[0] == '-' && SkipSpace(t) == t;
    DigitRunExact(ds, rest);
    DecimalValue(n);
    hide Decimal;
    var digits := ds + rest;
    assert t[1..] == digits;
    assert digits[..|ds|] == ds && digits[|ds|..] == rest;
  }

  lemma ScanIntBack(n: int, rest: string)
    requires rest == "" || !IsDigit(rest[0])
    ensures ScanInt(Signed(n) + rest) == Some((n, rest))
  {
    hide ScanInt, Decimal;
    if n < 0 {
      ScanMinus(-n, rest);
    } else {
      ScanPlain(n, rest);
    }
  }

  // Whatever numbers a colour sequence holds, each is cut to a byte.
  lemma ScanThree(r: int, g: int, b: int)
    ensures ScanColour("38;2;" + (Signed(r) + (";" + (Signed(g) + (";" + Signed(b)))))) ==
            Some(Rgb(r % 256, g % 256, b % 256))
  {
    hide ScanInt, Signed, ScanColour;
    var afterG := Signed(b);
    var afterR := Signed(g) + (";" + afterG);
    ScanIntBack(r, ";" + afterR);
    ScanIntBack(g, ";" + afterG);
    ScanIntBack(b, "");
    assert afterG + "" == afterG;
    ScanParts(Signed(r) + (";" + afterR), afterR, afterG, r, g, b);
  }

  lemma ScanParts(colour: string, afterR: string, afterG: string, r: int, g: int, b: int)
    requires ScanInt(colour) == Some((r, ";" + afterR)) && ScanInt(afterR) == Some((g, ";" + afterG))
    requires ScanInt(afterG) == Some((b, ""))
    ensures ScanColour("38;2;" + colour) == Some(Rgb(r % 256, g % 256, b % 256))
  {
    hide ScanInt;
    assert ("38;2;" + colour)[5..] == colour && "38;2;" <= "38;2;" + colour;
    assert (";" + afterR)[1..] == afterR && (";" + afterG)[1..] == afterG;
  }

  lemma ScanColourBack(c: Rgb)
    ensures ScanColour(Join([38, 2, c.r, c.g, c.b])) == Some(c)
  {
    hide Decimal, ScanColour, Join;
    JoinColour(c);
    ScanThree(c.r, c.g, c.b);
  }

  lemma JoinColour(c: Rgb)
    ensures Join([38, 2, c.r, c.g, c.b]) ==
            "38;2;" + (Decimal(c.r) + (";" + (Decimal(c.g) + (";" + Decimal(c.b)))))
  {
    var ns: seq<nat> := [38, 2, c.r, c.g, c.b];
    assert ns[1..] == [2, c.r, c.g, c.b] && ns[1..][1..] == [c.r, c.g, c.b];
    assert ns[1..][1..][1..] == [c.g, c.b] && ns[1..][1..][1..][1..] == [c.b];
    assert Decimal(38) == "38" by {
      assert Decimal(3) == "3";
    }
    assert Decimal(2) == "2";
    assert Join([c.g, c.b]) == Decimal(c.g) + (";" + Decimal(c.b));
    assert Join([c.r, c.g, c.b]) == Decimal(c.r) + (";" + Join([c.g, c.b]));
    assert Join([2, c.r, c.g, c.b]) == "2" + (";" + Join([c.r, c.g, c.b]));
  }

  // A control sequence ends at the first m, which its numbers do not contain.
  lemma EscapeOf(pre: string, sgr: string, rest: string)
    requires 'm' !in sgr
    ensures var text := pre + Sequence(sgr) + rest;
            var end := |pre| + |Sequence(sgr)| - 1;
            EscapeEnd(text, |pre|) == Some(end) && text[|pre| + 2..end] == sgr
  {
    var text, at := pre + Sequence(sgr) + rest, |pre| + 2 + |sgr|;
    assert text[|pre|] == ESC && text[|pre| + 1] == '[' && text[at] == 'm';
    assert text[|pre| + 2..at] == sgr;
    assert forall j :: |pre| + 2 <= j < at ==> text[j] == sgr[j - |pre| - 2];
    FindFirst(text, "m", |pre| + 2, at);
  }

  lemma JoinHasNoM(ns: seq<nat>)
    requires ns != []
    ensures 'm' !in Join(ns) && Csi(ns, 'm') == Sequence(Join(ns)) && Bytes(Join(ns))
  {
    JoinIsParams(ns);
    assert forall c: char :: IsParam(c) ==> c as int < 256;
  }

  // ---- The text on the screen ----

  function CellOf(s: Screen, col: int, row: int): Cell
    requires s.Sized() && 0 <= col < s.width && 0 <= row < s.height
  {
    IndexBound(s.width, s.height, col, row);
    s.back[row * s.width + col]
  }

  lemma SetCellAt(s: Screen, x: int, y: int, c: Cell, col: int, row: int)
    requires s.Sized() && 0 <= col < s.width && 0 <= row < s.height
    ensures CellOf(SetCell(s, x, y, c), col, row) == if (col, row) == (x, y) then c else CellOf(s, col, row)
  {
    IndexBound(s.width, s.height, col, row);
    if 0 <= x < s.width && 0 <= y < s.height {
      IndexBound(s.width, s.height, x, y);
      if row * s.width + col == y * s.width + x {
        SameQuotient(row, col, y, x, s.width);
      }
    }
  }

  predicate OnScreen(s: Screen, col: int, row: int) {
    0 <= col < s.width && 0 <= row < s.height
  }

  // Some character from the k-th token on belongs there.
  predicate Inked(sheet: Sheet, ts: seq<Token>, from: nat, col: int, row: int)
    requires sheet.columns > 0
  {
    exists k :: from <= k < |ts| && ts[k].Ink? && Column(sheet, ts, k) == col && Row(sheet, ts, k) == row
  }

  // Each character from the k-th token on is at its place, in its colour, and all other cells
  // are as they were.
  ghost predicate Painted(s: Screen, r: Screen, sheet: Sheet, ts: seq<Token>, from: nat, style: Style)
    requires s.Sized() && sheet.columns > 0
  {
    && r == s.(back := r.back) && |r.back| == |s.back|
    && (forall k :: from <= k < |ts| && ts[k].Ink? && OnScreen(s, Column(sheet, ts, k), Row(sheet, ts, k)) ==>
          CellOf(r, Column(sheet, ts, k), Row(sheet, ts, k)) == InkCell(sheet, ts, k, style))
    && (forall col, row :: OnScreen(s, col, row) && !Inked(sheet, ts, from, col, row) ==>
          CellOf(r, col, row) == CellOf(s, col, row))
  }

  lemma PaintedSkip(s: Screen, r: Screen, sheet: Sheet, ts: seq<Token>, q: nat, style: Style)
    requires s.Sized() && sheet.columns > 0 && q < |ts| && !ts[q].Ink?
    requires Painted(s, r, sheet, ts, q + 1, style)
    ensures Painted(s, r, sheet, ts, q, style)
  {
    hide Column, Row, CellOf, InkCell;
    forall col, row | OnScreen(s, col, row) && !Inked(sheet, ts, q, col, row)
      ensures CellOf(r, col, row) == CellOf(s, col, row)
    {
      assert !Inked(sheet, ts, q + 1, col, row);
    }
  }

  lemma OnScreenLine(sheet: Sheet, ts: seq<Token>, k: nat)
    requires sheet.columns > 0 && k <= |ts| && Row(sheet, ts, k) >= 0
    ensures Line(sheet, ts, k) >= 0
  {
    if Line(sheet, ts, k) < 0 {
      AboveTakesNoRoom(sheet, ts, k);
    }
  }

  lemma NotInkedAgain(sheet: Sheet, ts: seq<Token>, q: nat)
    requires sheet.columns > 0 && q < |ts| && ts[q].Ink? && Row(sheet, ts, q) >= 0
    ensures !Inked(sheet, ts, q + 1, Column(sheet, ts, q), Row(sheet, ts, q))
  {
    OnScreenLine(sheet, ts, q);
    hide Column, Row, Line;
    var col, row := Column(sheet, ts, q), Row(sheet, ts, q);
    forall k | q + 1 <= k < |ts| ensures !(Column(sheet, ts, k) == col && Row(sheet, ts, k) == row) {
      ReadingOrder(sheet, ts, q, k);
    }
  }

  lemma PaintedInk(s: Screen, s': Screen, r: Screen, sheet: Sheet, ts: seq<Token>, q: nat, style: Style)
    requires s.Sized() && sheet.columns > 0 && q < |ts| && ts[q].Ink?
    requires var row, col := Row(sheet, ts, q), Column(sheet, ts, q);
             s' == DrawAt(s, row >= 0, col, row, InkCell(sheet, ts, q, style))
    requires Painted(s', r, sheet, ts, q + 1, style)
    ensures Painted(s, r, sheet, ts, q, style)
  {
    var x, y := Column(sheet, ts, q), Row(sheet, ts, q);
    var c := InkCell(sheet, ts, q, style);
    forall col, row | OnScreen(s, col, row)
      ensures CellOf(s', col, row) == if (col, row) == (x, y) then c else CellOf(s, col, row)
    {
      SetCellAt(s, x, y, c, col, row);
    }
    hide Column, Row, CellOf, InkCell, SetCell;
    if OnScreen(s, x, y) {
      NotInkedAgain(sheet, ts, q);
    }
    forall col, row | OnScreen(s, col, row) && !Inked(sheet, ts, q, col, row)
      ensures CellOf(r, col, row) == CellOf(s, col, row)
    {
      assert !Inked(sheet, ts, q + 1, col, row);
    }
  }

  lemma PaintedBelow(s: Screen, sheet: Sheet, ts: seq<Token>, q: nat, style: Style)
    requires s.Sized() && sheet.columns > 0 && q < |ts| && ts[q].Ink? && Row(sheet, ts, q) >= s.height
    ensures Painted(s, s, sheet, ts, q, style)
  {
    OnScreenLine(sheet, ts, q);
    hide Column, Row, CellOf, InkCell, Line;
    forall k | q <= k < |ts| ensures Row(sheet, ts, k) >= s.height {
      if q < k {
        ReadingOrder(sheet, ts, q, k);
      }
    }
  }

  // From any token on: what the rest of the text does to the screen.
  lemma {:induction false} TokensLand(s: Screen, sheet: Sheet, style: Style, ts: seq<Token>, q: nat, pre: string)
    requires s.Sized() && s.width == sheet.x + sheet.columns && sheet.columns > 0
    requires style.x == sheet.x && style.fg == sheet.fg
    requires AllWritable(ts) && q <= |ts| && Bytes(pre)
    ensures Bytes(pre + TextOf(ts[q..]))
    ensures Painted(s, WriteFrom(s, style, PenAt(sheet, ts, q), pre + TextOf(ts[q..]), |pre|), sheet, ts, q, style)
    decreases |ts| - q
  {
    hide WriteFrom, PenAt, TokenBytes, TextOf, Painted, Row, Column, InkCell, SetCell;
    TextIsBytes(ts[q..]);
    if q == |ts| {
      NothingLeft(s, sheet, style, ts, pre);
    } else {
      var t, rest := ts[q], TextOf(ts[q + 1..]);
      TextIsBytes(ts[q + 1..]);
      TokenIsBytes(t);
      TextFrom(ts, q, pre);
      var pre' := pre + TokenBytes(t);
      var text := pre' + rest;
      match t {
        case Ink(cp) =>
          InkTurn(s, sheet, style, ts, q, pre, rest);
          var row, col := Row(sheet, ts, q), Column(sheet, ts, q);
          if row >= s.height {
            PaintedBelow(s, sheet, ts, q, style);
          } else {
            var s' := DrawAt(s, row >= 0, col, row, InkCell(sheet, ts, q, style));
            TokensLand(s', sheet, style, ts, q + 1, pre');
            PaintedInk(s, s', WriteFrom(s', style, PenAt(sheet, ts, q + 1), text, |pre'|), sheet, ts, q, style);
          }
        case _ =>
          OtherTurn(s, sheet, style, ts, q, pre, rest);
          TokensLand(s, sheet, style, ts, q + 1, pre');
          PaintedSkip(s, WriteFrom(s, style, PenAt(sheet, ts, q + 1), text, |pre'|), sheet, ts, q, style);
      }
    }
  }

  lemma NothingLeft(s: Screen, sheet: Sheet, style: Style, ts: seq<Token>, pre: string)
    requires s.Sized() && sheet.columns > 0 && AllWritable(ts) && Bytes(pre)
    ensures Bytes(pre + TextOf(ts[|ts|..]))
    ensures Painted(s, WriteFrom(s, style, PenAt(sheet, ts, |ts|), pre + TextOf(ts[|ts|..]), |pre|),
                    sheet, ts, |ts|, style)
  {
    hide PenAt, CellOf;
    assert pre + TextOf(ts[|ts|..]) == pre;
  }

  lemma TextFrom(ts: seq<Token>, q: nat, pre: string)
    requires AllWritable(ts) && q < |ts|
    ensures pre + TextOf(ts[q..]) == pre + TokenBytes(ts[q]) + TextOf(ts[q + 1..])
  {
    hide TokenBytes;
    assert ts[q..][0] == ts[q] && ts[q..][1..] == ts[q + 1..];
    Assoc(pre, TokenBytes(ts[q]), TextOf(ts[q + 1..]));
  }

  lemma InkTurn(s: Screen, sheet: Sheet, style: Style, ts: seq<Token>, q: nat, pre: string, rest: string)
    requires s.Sized() && s.width == sheet.x + sheet.columns && sheet.columns > 0 && style.x == sheet.x
    requires q < |ts| && ts[q].Ink? && Writable(ts[q]) && Bytes(pre) && Bytes(rest)
    ensures var text := pre + TokenBytes(ts[q]) + rest;
            var row, col := Row(sheet, ts, q), Column(sheet, ts, q);
            && Bytes(text)
            && WriteFrom(s, style, PenAt(sheet, ts, q), text, |pre|) ==
               if row >= s.height then s
               else WriteFrom(DrawAt(s, row >= 0, col, row, InkCell(sheet, ts, q, style)),
                              style, PenAt(sheet, ts, q + 1), text, |pre + TokenBytes(ts[q])|)
  {
    hide WriteFrom, PenAt, Row, Column, Hue, Encode, DecodeAt, PlaceOf, EscapeEnd, SetCell;
    var cp, pen := ts[q].cp, PenAt(sheet, ts, q);
    InkColour(sheet, ts, q);
    AfterInk(sheet, ts, q);
    DecodeEncoded(pre, cp, rest);
    NotAnEscape(pre, cp, rest);
    InkPlace(s, sheet, style, ts, q);
    WriteStep(s, style, pen, pre + Encode(cp) + rest, |pre|, cp, |Encode(cp)|);
  }

  lemma InkColour(sheet: Sheet, ts: seq<Token>, k: nat)
    requires sheet.columns > 0 && k <= |ts|
    ensures PenAt(sheet, ts, k).fg == Hue(sheet, ts, k)
  {
    hide Hue, Line, Nth;
  }

  lemma SamePen(sheet: Sheet, ts: seq<Token>, k: nat)
    requires sheet.columns > 0 && k < |ts| && (ts[k].Paint? || ts[k].Reset? || ts[k].Skip?)
    ensures var pen := PenAt(sheet, ts, k);
            PenAt(sheet, ts, k + 1) ==
            match ts[k] case Paint(c) => pen.(fg := c) case Reset => pen.(fg := sheet.fg) case _ => pen
  {
  }

  lemma OtherTurn(s: Screen, sheet: Sheet, style: Style, ts: seq<Token>, q: nat, pre: string, rest: string)
    requires s.Sized() && sheet.columns > 0 && style.x == sheet.x && style.fg == sheet.fg
    requires q < |ts| && !ts[q].Ink? && Writable(ts[q]) && Bytes(pre) && Bytes(rest)
    ensures var text := pre + TokenBytes(ts[q]) + rest;
            && Bytes(text)
            && WriteFrom(s, style, PenAt(sheet, ts, q), text, |pre|) ==
               WriteFrom(s, style, PenAt(sheet, ts, q + 1), text, |pre + TokenBytes(ts[q])|)
  {
    hide WriteFrom, PenAt, Csi, ColourAfter, Join;
    var pen := PenAt(sheet, ts, q);
    match ts[q]
    case Break => BreakTurn(s, sheet, style, ts, q, pre, rest);
    case Paint(c) =>
      JoinHasNoM([38, 2, c.r, c.g, c.b]);
      ColourTurn(s, style, pen, pre, Join([38, 2, c.r, c.g, c.b]), rest);
      PaintedWith(c, pen.fg, style.fg);
      SamePen(sheet, ts, q);
    case Reset =>
      JoinHasNoM([0]);
      ColourTurn(s, style, pen, pre, Join([0]), rest);
      ResetWith(pen.fg, style.fg);
      SamePen(sheet, ts, q);
    case Skip(sgr) =>
      ColourTurn(s, style, pen, pre, sgr, rest);
      SkippedWith(sgr, pen.fg, style.fg);
      SamePen(sheet, ts, q);
  }

  lemma SkippedWith(sgr: string, current: Rgb, initial: Rgb)
    requires sgr != "0" && !("38;2;" <= sgr)
    ensures ColourAfter(sgr, current, initial) == current
  {
  }

  lemma ResetWith(current: Rgb, initial: Rgb)
    ensures ColourAfter(Join([0]), current, initial) == initial
  {
    assert Join([0]) == "0";
  }

  lemma PaintedWith(c: Rgb, current: Rgb, initial: Rgb)
    ensures ColourAfter(Join([38, 2, c.r, c.g, c.b]), current, initial) == c
  {
    ScanColourBack(c);
    JoinColour(c);
    hide ScanColour, Join, Decimal;
    assert |Join([38, 2, c.r, c.g, c.b])| > 1;
  }

  lemma BytesJoined(a: string, b: string, c: string)
    requires Bytes(a) && Bytes(b) && Bytes(c)
    ensures Bytes(a + b + c)
  {
  }

  lemma SequenceIsBytes(sgr: string)
    requires Bytes(sgr)
    ensures Bytes(Sequence(sgr)) && Sequence(sgr) != ""
  {
  }

  lemma ColourTurn(s: Screen, style: Style, pen: Pen, pre: string, sgr: string, rest: string)
    requires s.Sized() && 'm' !in sgr && Bytes(pre) && Bytes(sgr) && Bytes(rest)
    ensures var text := pre + Sequence(sgr) + rest;
            && Bytes(text)
            && WriteFrom(s, style, pen, text, |pre|) ==
               WriteFrom(s, style, pen.(fg := ColourAfter(sgr, pen.fg, style.fg)), text, |pre + Sequence(sgr)|)
  {
    hide EscapeEnd, ColourAfter, WriteFrom, Sequence, Bytes;
    SequenceIsBytes(sgr);
    BytesJoined(pre, Sequence(sgr), rest);
    EscapeOf(pre, sgr, rest);
    var text, end := pre + Sequence(sgr) + rest, |pre| + |Sequence(sgr)| - 1;
    WriteEscape(s, style, pen, text, |pre|, end);
  }

  lemma BreakTurn(s: Screen, sheet: Sheet, style: Style, ts: seq<Token>, q: nat, pre: string, rest: string)
    requires s.Sized() && sheet.columns > 0 && style.x == sheet.x
    requires q < |ts| && ts[q].Break? && Bytes(pre) && Bytes(rest)
    ensures var text := pre + "\n" + rest;
            && Bytes(text)
            && WriteFrom(s, style, PenAt(sheet, ts, q), text, |pre|) ==
               WriteFrom(s, style, PenAt(sheet, ts, q + 1), text, |pre + "\n"|)
  {
    var text, pen := pre + "\n" + rest, PenAt(sheet, ts, q);
    assert text[|pre|] == '\n' && EscapeEnd(text, |pre|) == None;
    assert DecodeAt(text, |pre|) == Decoded('\n' as int, 1);
    hide PenAt, DecodeAt, EscapeEnd, WriteFrom;
    BreakPlace(s, sheet, style, ts, q);
    WriteStep(s, style, pen, text, |pre|, '\n' as int, 1);
  }

  // Any text of characters, line breaks and colour sequences, written anywhere left of the right
  // edge: the n-th character of a line lands n columns on, wrapped as often as the line is full,
  // in the colour last set; what lies outside the screen is lost and nothing else changes.
  lemma TextLands(s: Screen, x: int, y: int, ts: seq<Token>, fg: Rgb, bg: Rgb, bold: bool)
    requires s.Sized() && AllWritable(ts) && x < s.width
    ensures Bytes(TextOf(ts))
    ensures Painted(s, WriteText(s, x, y, TextOf(ts), fg, bg, bold), Sheet(x, y, s.width - x, fg), ts, 0,
                    Style(x, fg, bg, bold))
  {
    hide Painted, WriteFrom;
    TokensLand(s, Sheet(x, y, s.width - x, fg), Style(x, fg, bg, bold), ts, 0, "");
    assert ts[0..] == ts && "" + TextOf(ts) == TextOf(ts);
  }

  // ---- Lines that fit ----

  function Inks(cps: seq<int>): seq<Token> {
    seq(|cps|, i requires 0 <= i < |cps| => Ink(cps[i]))
  }

  lemma {:induction false} PlainLine(sheet: Sheet, ts: seq<Token>, from: nat, n: nat)
    requires sheet.columns > 0 && from + n <= |ts| && forall k :: from <= k < from + n ==> ts[k].Ink?
    requires Line(sheet, ts, from) >= 0 && Nth(sheet, ts, from) == 0 && Hue(sheet, ts, from) == sheet.fg
    ensures Line(sheet, ts, from + n) == Line(sheet, ts, from) && Nth(sheet, ts, from + n) == n
    ensures Hue(sheet, ts, from + n) == sheet.fg
    decreases n
  {
    if n > 0 {
      PlainLine(sheet, ts, from, n - 1);
      assert from + n - 1 == from + (n - 1);
    }
  }

  lemma PlainPlace(sheet: Sheet, ts: seq<Token>, k: nat, n: nat)
    requires sheet.columns > 0 && k <= |ts| && Nth(sheet, ts, k) == n < sheet.columns
    ensures Column(sheet, ts, k) == sheet.x + n && Row(sheet, ts, k) == Line(sheet, ts, k)
  {
    DivUnique(n, sheet.columns, 0, n);
  }

  // Where the characters of two lines that fit belong.
  lemma TwoLines(sheet: Sheet, a: seq<int>, b: seq<int>, k: nat)
    requires |a| <= sheet.columns && |b| <= sheet.columns && sheet.columns > 0 && sheet.y >= 0
    requires k <= |a| + |b| && k != |a|
    ensures var ts := Inks(a) + [Break] + Inks(b);
            var i, row := if k < |a| then k else k - |a| - 1, if k < |a| then sheet.y else sheet.y + 1;
            && k < |ts| && ts[k] == Ink(if k < |a| then a[k] else b[k - |a| - 1]) && Hue(sheet, ts, k) == sheet.fg
            && Column(sheet, ts, k) == sheet.x + i && Row(sheet, ts, k) == row
  {
    hide Column, Row, Line, Nth, Hue;
    var ts := Inks(a) + [Break] + Inks(b);
    LineStarts(sheet, ts);
    if k < |a| {
      PlainLine(sheet, ts, 0, k);
      PlainPlace(sheet, ts, k, k);
    } else {
      PlainLine(sheet, ts, 0, |a|);
      NextLine(sheet, ts, |a|);
      PlainLine(sheet, ts, |a| + 1, k - |a| - 1);
      PlainPlace(sheet, ts, k, k - |a| - 1);
    }
  }

  lemma LineStarts(sheet: Sheet, ts: seq<Token>)
    requires sheet.columns > 0
    ensures Line(sheet, ts, 0) == sheet.y && Nth(sheet, ts, 0) == 0 && Hue(sheet, ts, 0) == sheet.fg
  {
  }

  lemma NextLine(sheet: Sheet, ts: seq<Token>, k: nat)
    requires sheet.columns > 0 && k < |ts| && ts[k].Break? && Nth(sheet, ts, k) <= sheet.columns
    ensures Line(sheet, ts, k + 1) == Line(sheet, ts, k) + 1 && Nth(sheet, ts, k + 1) == 0
    ensures Hue(sheet, ts, k + 1) == Hue(sheet, ts, k)
  {
    var n := Nth(sheet, ts, k);
    if n > 0 {
      DivUnique(n - 1, sheet.columns, 0, n - 1);
    }
  }

  // So a text of two lines that fit covers two rows, both from the column it is written at.
  lemma TwoLinesLand(s: Screen, x: int, y: int, a: seq<int>, b: seq<int>, fg: Rgb, bg: Rgb, bold: bool)
    requires s.Sized() && 0 <= x < s.width && 0 <= y < s.height && x + |a| <= s.width && x + |b| <= s.width
    requires AllWritable(Inks(a) + [Break] + Inks(b))
    ensures Bytes(TextOf(Inks(a) + [Break] + Inks(b)))
    ensures var r := WriteText(s, x, y, TextOf(Inks(a) + [Break] + Inks(b)), fg, bg, bold);
            && r == s.(back := r.back) && |r.back| == |s.back|
            && forall col, row :: OnScreen(s, col, row) ==>
                 CellOf(r, col, row) ==
                 if row == y && x <= col < x + |a| then Cell(a[col - x], fg, bg, bold)
                 else if row == y + 1 && x <= col < x + |b| then Cell(b[col - x], fg, bg, bold)
                 else CellOf(s, col, row)
  {
    hide WriteText, TextOf, CellOf, Column, Row, Hue, AllWritable;
    var ts, sheet := Inks(a) + [Break] + Inks(b), Sheet(x, y, s.width - x, fg);
    TextLands(s, x, y, ts, fg, bg, bold);
    forall k | 0 <= k < |ts| && ts[k].Ink?
      ensures k != |a|
    {
    }
    forall col, row | OnScreen(s, col, row)
      ensures CellOf(WriteText(s, x, y, TextOf(ts), fg, bg, bold), col, row) ==
              if row == y && x <= col < x + |a| then Cell(a[col - x], fg, bg, bold)
              else if row == y + 1 && x <= col < x + |b| then Cell(b[col - x], fg, bg, bold)
              else CellOf(s, col, row)
    {
      if row == y && x <= col < x + |a| {
        TwoLines(sheet, a, b, col - x);
      } else if row == y + 1 && x <= col < x + |b| {
        TwoLines(sheet, a, b, |a| + 1 + col - x);
      } else {
        NotOnTwoLines(sheet, a, b, col, row);
      }
    }
  }

  lemma NotOnTwoLines(sheet: Sheet, a: seq<int>, b: seq<int>, col: int, row: int)
    requires |a| <= sheet.columns && |b| <= sheet.columns && sheet.columns > 0 && sheet.y >= 0
    requires !(row == sheet.y && sheet.x <= col < sheet.x + |a|)
    requires !(row == sheet.y + 1 && sheet.x <= col < sheet.x + |b|)
    ensures !Inked(sheet, Inks(a) + [Break] + Inks(b), 0, col, row)
  {
    hide Column, Row;
    var ts := Inks(a) + [Break] + Inks(b);
    forall k | 0 <= k < |ts| && ts[k].Ink? ensures !(Column(sheet, ts, k) == col && Row(sheet, ts, k) == row) {
      TwoLines(sheet, a, b, k);
    }
  }

  // Written at or beyond the right edge, no text shows at all.
  lemma {:induction false} BeyondTheEdge(s: Screen, style: Style, pen: Pen, text: string, i: nat)
    requires s.Sized() && Bytes(text) && i <= |text| && style.x >= s.width && pen.cx >= s.width
    ensures WriteFrom(s, style, pen, text, i) == s
    decreases |text| - i
  {
    hide DecodeAt, EscapeEnd, ColourAfter;
    if i < |text| {
      var end := EscapeEnd(text, i);
      if end.Some? {
        BeyondTheEdge(s, style, pen.(fg := ColourAfter(text[i + 2..end.value], pen.fg, style.fg)), text, end.value + 1);
      } else {
        var d := DecodeAt(text, i);
        var place := PlaceOf(s, style, pen, d.cp);
        if place.Some? {
          BeyondTheEdge(s, style, place.value.2, text, i + d.len);
        }
      }
    }
  }

  // Clearing and rendering, after any run, leaves white-on-black spaces everywhere.
  lemma ClearedScreenIsBlank(s: Screen, t: Terminal, x: nat, y: nat)
    requires InStep(s, t) && x < s.width && y < s.height
    ensures InStep(Clear(s), t)
    ensures var r := Perform(Clear(s), t, DoRender).1;
            (y, x) in r.grid && r.grid[(y, x)] == Glyph(0x20, Rgb(255, 255, 255), Rgb(0, 0, 0))
  {
    StepKeepsInStep(s, t, DoClear);
    var s', i := Clear(s), y * s.width + x;
    RenderIsExact(s', t);
    IndexBound(s.width, s.height, x, y);
    DivUnique(i, s.width, y, x);
    var r := Perform(s', t, DoRender).1;
    assert s'.back[i] == BLANK && Printable(BLANK.ch);
    hide InStep, Diff, Feed;
    assert ShowsAt(r, s.width, i, BLANK);
  }

  // The sequences as bytes: the cursor to the top left, and a reset.
  lemma KnownSequences()
    ensures MoveBytes(0, 0) == [0x1B as char] + "[1;1H" && Csi([0], 'm') == [0x1B as char] + "[0m"
  {
    assert [1, 1][1..] == [1] && Decimal(1) == "1" && Decimal(0) == "0";
    assert Join([1, 1]) == "1" + (";" + Join([1])) && Join([1]) == "1";
  }
}
