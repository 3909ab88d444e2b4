/**
The double-buffered screen: drawing goes to a back buffer, and render() sends the terminal
only the cells that differ from the front buffer, its record of what the terminal shows.
*/
module Screen {
  import opened Text
  import opened Utf8
  import opened Terminal

  datatype Cell = Cell(ch: int, fg: Rgb, bg: Rgb, bold: bool)

  const WHITE: Rgb := Rgb(255, 255, 255)
  const BLACK: Rgb := Rgb(0, 0, 0)
  const BLANK: Cell := Cell(' ' as int, WHITE, BLACK, false)

  // Marks a front cell whose place on the terminal is unknown.
  const UNKNOWN_CH: int := 0xFFFFFFFF
  const UNKNOWN: Cell := Cell(UNKNOWN_CH, WHITE, BLACK, false)

  datatype Screen = Screen(width: nat, height: nat, front: seq<Cell>, back: seq<Cell>)
  {
    predicate Sized() {
      |front| == |back| == width * height
    }
  }

  // What of a cell is visible: bold is stored and never sent.
  function GlyphOf(c: Cell): Glyph {
    Glyph(c.ch, c.fg, c.bg)
  }

  // ---- Drawing ----

  function Blanks(n: nat, c: Cell): (r: seq<Cell>)
    ensures |r| == n && forall i :: 0 <= i < n ==> r[i] == c
  {
    seq(n, _ => c)
  }

  function Resize(s: Screen, w: nat, h: nat): Screen {
    if w == s.width && h == s.height then s else Screen(w, h, Blanks(w * h, UNKNOWN), Blanks(w * h, BLANK))
  }

  function Clear(s: Screen): Screen {
    s.(back := Blanks(|s.back|, BLANK))
  }

  function SetCell(s: Screen, x: int, y: int, c: Cell): (r: Screen)
    requires s.Sized()
    ensures r == s.(back := r.back) && |r.back| == |s.back|
  {
    if x < 0 || x >= s.width || y < 0 || y >= s.height then s
    else
      IndexBound(s.width, s.height, x, y);
      s.(back := s.back[y * s.width + x := c])
  }

  lemma IndexBound(w: nat, h: nat, x: int, y: int)
    requires 0 <= x < w && 0 <= y < h
    ensures 0 <= y * w + x < w * h
  {
    assert y * w <= (h - 1) * w;
  }

  // ---- Text with embedded colour sequences ----

  // One %d of sscanf: white space, a sign, digits.
  function ScanInt(s: string): Option<(int, string)> {
    var t := SkipSpace(s);
    var signed := t != "" && (t[0] == '-' || t[0] == '+');
    var digits := if signed then t[1..] else t;
    var k := DigitRun(digits);
    if k == 0 then None
    else
      var v := DigitsValue(digits[..k]);
      Some((if signed && t[0] == '-' then 0 - (v as int) else v as int, digits[k..]))
  }

  // sscanf(sgr, "38;2;%d;%d;%d") == 3, each value cut to a byte.
  function ScanColour(sgr: string): Option<Rgb> {
    if !("38;2;" <= sgr) then None
    else match ScanInt(sgr[5..])
      case None => None
      case Some((r, afterR)) =>
        if afterR == "" || afterR[0] != ';' then None
        else match ScanInt(afterR[1..])
          case None => None
          case Some((g, afterG)) =>
            if afterG == "" || afterG[0] != ';' then None
            else match ScanInt(afterG[1..])
              case None => None
              case Some((b, _)) => Some(Rgb(r % 256, g % 256, b % 256))
  }

  function ColourAfter(sgr: string, current: Rgb, initial: Rgb): Rgb {
    if sgr == "0" then initial
    else
      var c := ScanColour(sgr);
      if c.Some? then c.value else current
  }

  // The style write_text was called with, and where it writes next.
  datatype Style = Style(x: int, fg: Rgb, bg: Rgb, bold: bool)
  datatype Pen = Pen(cx: int, cy: int, fg: Rgb)

  // The end of a colour sequence that starts at i, if one does.
  function EscapeEnd(text: string, i: nat): (r: Option<nat>)
    requires i < |text|
    ensures r.Some? ==> i + 2 <= r.value < |text|
  {
    if text[i] == ESC && i + 2 < |text| && text[i + 1] == '[' then Find(text, "m", i + 2) else None
  }

  // One character: where it goes and where the pen stands after it; None ends the text.
  function PlaceOf(s: Screen, style: Style, pen: Pen, cp: int): Option<(bool, int, Pen)> {
    if cp == '\n' as int then Some((false, pen.cx, pen.(cx := style.x, cy := pen.cy + 1)))
    else
      var p := if pen.cx >= s.width then pen.(cx := style.x, cy := pen.cy + 1) else pen;
      if 0 <= p.cy < s.height then Some((true, p.cx, p.(cx := p.cx + 1)))
      else if p.cy >= s.height then None
      else Some((false, p.cx, p))
  }

  function DrawAt(s: Screen, draws: bool, x: int, y: int, c: Cell): (r: Screen)
    requires s.Sized()
    ensures r == s.(back := r.back) && |r.back| == |s.back|
  {
    if draws then SetCell(s, x, y, c) else s
  }

  function WriteFrom(s: Screen, style: Style, pen: Pen, text: string, i: nat): Screen
    requires s.Sized() && Bytes(text) && i <= |text|
    decreases |text| - i
  {
    if i == |text| then s
    else match EscapeEnd(text, i)
      case Some(end) =>
        WriteFrom(s, style, pen.(fg := ColourAfter(text[i + 2..end], pen.fg, style.fg)), text, end + 1)
      case None =>
        var d := DecodeAt(text, i);
        match PlaceOf(s, style, pen, d.cp)
        case None => s
        case Some((draws, cx, pen')) =>
          WriteFrom(DrawAt(s, draws, cx, pen'.cy, Cell(d.cp, pen.fg, style.bg, style.bold)),
                    style, pen', text, i + d.len)
  }

  function WriteText(s: Screen, x: int, y: int, text: string, fg: Rgb, bg: Rgb, bold: bool): Screen
    requires s.Sized() && Bytes(text)
  {
    WriteFrom(s, Style(x, fg, bg, bold), Pen(x, y, fg), text, 0)
  }

  // ---- Rendering ----

  function MoveBytes(y: nat, x: nat): string {
    Csi([y + 1, x + 1], 'H')
  }

  function ColourBytes(c: Cell): string {
    Csi([38, 2, c.fg.r, c.fg.g, c.fg.b], 'm') + Csi([48, 2, c.bg.r, c.bg.g, c.bg.b], 'm')
  }

  // The colours the renderer believes are set; None before the first cell it sends.
  type Colours = Option<(Rgb, Rgb)>

  predicate Drawable(cells: seq<Cell>) {
    forall i :: 0 <= i < |cells| ==> 0 <= cells[i].ch < CODE_POINTS
  }

  function CellBytes(w: nat, idx: nat, c: Cell, colours: Colours): string
    requires w > 0 && 0 <= c.ch < CODE_POINTS
  {
    MoveBytes(idx / w, idx % w) + ((if colours == Some((c.fg, c.bg)) then "" else ColourBytes(c)) + Encode(c.ch))
  }

  // The output of render() for the cells from idx on.
  function DiffFrom(s: Screen, idx: nat, colours: Colours): string
    requires s.Sized() && Drawable(s.back) && idx <= |s.back|
    decreases |s.back| - idx
  {
    if idx == |s.back| then ""
    else if s.front[idx] == s.back[idx] then DiffFrom(s, idx + 1, colours)
    else
      var c := s.back[idx];
      CellBytes(s.width, idx, c, colours) + DiffFrom(s, idx + 1, Some((c.fg, c.bg)))
  }

  function Diff(s: Screen): string
    requires s.Sized() && Drawable(s.back)
  {
    DiffFrom(s, 0, None)
  }

  function Rendered(s: Screen): Screen {
    s.(front := s.back)
  }

  class TerminalScreen {
    var width: nat
    var height: nat
    var front: seq<Cell>
    var back: seq<Cell>

    constructor (w: nat, h: nat)
      ensures View() == Screen(w, h, Blanks(w * h, UNKNOWN), Blanks(w * h, BLANK))
    {
      width, height := w, h;
      front, back := Blanks(w * h, UNKNOWN), Blanks(w * h, BLANK);
    }

    function View(): Screen
      reads this
    {
      Screen(width, height, front, back)
    }

    method ResizeTo(w: nat, h: nat)
      modifies this
      ensures View() == Resize(old(View()), w, h)
    {
      if w == width && h == height {
        return;
      }
      width, height := w, h;
      front, back := Blanks(w * h, UNKNOWN), Blanks(w * h, BLANK);
    }

    method ClearBack()
      modifies this
      ensures View() == Clear(old(View()))
    {
      var n := 0;
      while n < |back|
        invariant n <= |back| == |old(back)| && View() == old(View()).(back := back)
        invariant forall i :: 0 <= i < n ==> back[i] == BLANK
      {
        back := back[n := BLANK];
        n := n + 1;
      }
      assert back == Blanks(|back|, BLANK);
    }

    method Set(x: int, y: int, c: Cell)
      requires View().Sized()
      modifies this
      ensures View() == SetCell(old(View()), x, y, c)
    {
      if x < 0 || x >= width || y < 0 || y >= height {
        return;
      }
      IndexBound(width, height, x, y);
      back := back[y * width + x := c];
    }

    method Write(x: int, y: int, text: string, fg: Rgb, bg: Rgb, bold: bool)
      requires View().Sized() && Bytes(text)
      modifies this
      ensures View() == WriteText(old(View()), x, y, text, fg, bg, bold)
    {
      hide DecodeAt, PlaceOf, SetCell, ColourAfter, EscapeEnd;
      var style, pen, i := Style(x, fg, bg, bold), Pen(x, y, fg), 0;
      while i < |text|
        invariant i <= |text| && View().Sized()
        invariant WriteFrom(View(), style, pen, text, i) == WriteText(old(View()), x, y, text, fg, bg, bold)
      {
        var end := EscapeEnd(text, i);
        if end.Some? {
          pen := pen.(fg := ColourAfter(text[i + 2..end.value], pen.fg, fg));
          i := end.value + 1;
        } else {
          var d := DecodeAt(text, i);
          var place := PlaceOf(View(), style, pen, d.cp);
          if place.None? {
            return;
          }
          var (draws, cx, pen') := place.value;
          if draws {
            Set(cx, pen'.cy, Cell(d.cp, pen.fg, bg, bold));
          }
          pen, i := pen', i + d.len;
        }
      }
    }

    // The nested loops of render(), with the position counted along.
    method Render() returns (out: string)
      requires View().Sized() && Drawable(back)
      modifies this`front
      ensures out == Diff(old(View()))
      ensures View() == Rendered(old(View()))
    {
      hide CellBytes;
      out := "";
      var colours: Colours := None;
      ghost var start := View();
      NothingSentYet(start);
      for idx := 0 to width * height
        invariant View() == start.(front := front) && |front| == |back|
        invariant forall i :: 0 <= i < |front| ==> front[i] == if i < idx then back[i] else start.front[i]
        invariant out + DiffFrom(start, idx, colours) == Diff(start)
      {
        if front[idx] != back[idx] {
          var c := back[idx];
          Assoc(out, CellBytes(width, idx, c, colours), DiffFrom(start, idx + 1, Some((c.fg, c.bg))));
          out := out + CellBytes(width, idx, c, colours);
          colours := Some((c.fg, c.bg));
          front := front[idx := c];
        }
      }
      assert front == back;
      AllSent(start, colours, out);
    }
  }

  lemma NothingSentYet(s: Screen)
    requires s.Sized() && Drawable(s.back)
    ensures "" + DiffFrom(s, 0, None) == Diff(s)
  {
  }

  lemma AllSent(s: Screen, colours: Colours, out: string)
    requires s.Sized() && Drawable(s.back)
    ensures out + DiffFrom(s, |s.back|, colours) == out
  {
  }

  // ---- What the terminal shows ----

  function Place(w: nat, idx: nat): (int, int)
    requires w > 0
  {
    (idx / w, idx % w)
  }

  // Distinct cells have distinct places on the grid.
  lemma PlaceInjective(w: nat, i: nat, j: nat)
    requires w > 0 && Place(w, i) == Place(w, j)
    ensures i == j
  {
    assert i == w * (i / w) + i % w;
    assert j == w * (j / w) + j % w;
  }

  ghost predicate Covers(t: Terminal, s: Screen) {
    s.width > 0 ==> forall i: nat :: i < |s.back| ==> Place(s.width, i) in t.grid
  }

  ghost predicate ShowsAt(t: Terminal, w: nat, i: nat, c: Cell)
    requires w > 0
  {
    Place(w, i) in t.grid && t.grid[Place(w, i)] == GlyphOf(c)
  }

  // Every place known to the front buffer shows it, unless it cannot be shown at all.
  ghost predicate Synced(t: Terminal, s: Screen) {
    s.width > 0 ==> forall i: nat :: i < |s.front| && Printable(s.front[i].ch) ==> ShowsAt(t, s.width, i, s.front[i])
  }

  // Only printable glyphs ever stand on the grid.
  ghost predicate CleanGrid(t: Terminal) {
    forall p :: p in t.grid ==> Printable(t.grid[p].ch)
  }

  lemma ColourBytesObeyed(t: Terminal, c: Cell, rest: string)
    requires Bytes(rest)
    ensures Bytes(ColourBytes(c) + rest)
    ensures Feed(t, ColourBytes(c) + rest) == Feed(t.(fg := c.fg, bg := c.bg), rest)
  {
    hide Csi, Feed;
    var a, b := Csi([38, 2, c.fg.r, c.fg.g, c.fg.b], 'm'), Csi([48, 2, c.bg.r, c.bg.g, c.bg.b], 'm');
    FeedCsi(t.(fg := c.fg), [48, 2, c.bg.r, c.bg.g, c.bg.b], 'm', rest);
    FeedCsi(t, [38, 2, c.fg.r, c.fg.g, c.fg.b], 'm', b + rest);
    Assoc(a, b, rest);
  }

  // The bytes of one cell move there, set its colours if they are not set, and draw it.
  lemma CellBytesObeyed(t: Terminal, w: nat, idx: nat, c: Cell, colours: Colours, rest: string)
    requires w > 0 && 0 <= c.ch < CODE_POINTS && Bytes(rest)
    requires colours.Some? ==> colours.value == (t.fg, t.bg)
    requires rest == "" || rest[0] == ESC
    ensures Bytes(CellBytes(w, idx, c, colours) + rest)
    ensures Feed(t, CellBytes(w, idx, c, colours) + rest) ==
            Feed(Put(t.(row := idx / w, col := idx % w, fg := c.fg, bg := c.bg), c.ch), rest)
  {
    hide Csi, Feed, Put, Encode, ColourBytes;
    var move, glyph := MoveBytes(idx / w, idx % w), Encode(c.ch);
    var set_ := if colours == Some((c.fg, c.bg)) then "" else ColourBytes(c);
    var at := t.(row := idx / w, col := idx % w);
    FeedGlyph(at.(fg := c.fg, bg := c.bg), c.ch, rest);
    if colours == Some((c.fg, c.bg)) {
      assert set_ + (glyph + rest) == glyph + rest;
    } else {
      ColourBytesObeyed(at, c, glyph + rest);
    }
    FeedCsi(t, [idx / w + 1, idx % w + 1], 'H', set_ + (glyph + rest));
    Assoc(move, set_ + glyph, rest);
    Assoc(set_, glyph, rest);
  }

  lemma {:induction false} DiffIsBytes(s: Screen, idx: nat, colours: Colours)
    requires s.Sized() && Drawable(s.back) && idx <= |s.back|
    ensures var out := DiffFrom(s, idx, colours); Bytes(out) && (out == "" || out[0] == ESC)
    decreases |s.back| - idx
  {
    hide CellBytes;
    if idx < |s.back| {
      var c := s.back[idx];
      if s.front[idx] == c {
        DiffIsBytes(s, idx + 1, colours);
      } else {
        DiffIsBytes(s, idx + 1, Some((c.fg, c.bg)));
        CellStartsWithEsc(s.width, idx, c, colours);
      }
    }
  }

  lemma CellStartsWithEsc(w: nat, idx: nat, c: Cell, colours: Colours)
    requires w > 0 && 0 <= c.ch < CODE_POINTS
    ensures var b := CellBytes(w, idx, c, colours); Bytes(b) && b != "" && b[0] == ESC
  {
    CsiIsBytes([idx / w + 1, idx % w + 1], 'H');
    CsiIsBytes([38, 2, c.fg.r, c.fg.g, c.fg.b], 'm');
    CsiIsBytes([48, 2, c.bg.r, c.bg.g, c.bg.b], 'm');
    EncodeIsBytes(c.ch);
  }

  // The grid after the cells from idx on were sent: the differing printable ones are drawn.
  ghost predicate Painted(before: Terminal, after: Terminal, s: Screen, idx: nat)
    requires s.Sized() && s.width > 0
  {
    && after.grid.Keys == before.grid.Keys
    && (forall i: nat :: i < |s.back| ==> Place(s.width, i) in after.grid)
    && (forall i: nat :: i < |s.back| ==>
          after.grid[Place(s.width, i)] ==
          if i >= idx && s.front[i] != s.back[i] && Printable(s.back[i].ch) then GlyphOf(s.back[i])
          else before.grid[Place(s.width, i)])
  }

  lemma PaintedOne(t: Terminal, s: Screen, idx: nat, after: Terminal)
    requires s.Sized() && s.width > 0 && Covers(t, s) && idx < |s.back| && s.front[idx] != s.back[idx]
    requires var c := s.back[idx];
             Painted(Put(t.(row := idx / s.width, col := idx % s.width, fg := c.fg, bg := c.bg), c.ch), after, s, idx + 1)
    ensures Painted(t, after, s, idx)
  {
    forall i: nat | i < |s.back| && i != idx
      ensures Place(s.width, i) != Place(s.width, idx)
    {
      if Place(s.width, i) == Place(s.width, idx) {
        PlaceInjective(s.width, i, idx);
      }
    }
  }

  lemma {:induction false} DiffPaints(t: Terminal, s: Screen, idx: nat, colours: Colours)
    requires s.Sized() && s.width > 0 && Drawable(s.back) && idx <= |s.back| && Covers(t, s)
    requires colours.Some? ==> colours.value == (t.fg, t.bg)
    ensures Bytes(DiffFrom(s, idx, colours))
    ensures Painted(t, Feed(t, DiffFrom(s, idx, colours)), s, idx)
    decreases |s.back| - idx
  {
    hide CellBytes, Painted, Covers, Put;
    DiffIsBytes(s, idx, colours);
    if idx == |s.back| {
      NothingPainted(t, s, idx);
    } else if s.front[idx] == s.back[idx] {
      DiffPaints(t, s, idx + 1, colours);
      SkipPainted(t, Feed(t, DiffFrom(s, idx + 1, colours)), s, idx);
    } else {
      var c := s.back[idx];
      var t' := Put(t.(row := idx / s.width, col := idx % s.width, fg := c.fg, bg := c.bg), c.ch);
      var rest := DiffFrom(s, idx + 1, Some((c.fg, c.bg)));
      DiffIsBytes(s, idx + 1, Some((c.fg, c.bg)));
      CellBytesObeyed(t, s.width, idx, c, colours, rest);
      PutKeeps(t.(row := idx / s.width, col := idx % s.width, fg := c.fg, bg := c.bg), c.ch, s);
      CoversSame(t, t.(row := idx / s.width, col := idx % s.width, fg := c.fg, bg := c.bg), s);
      DiffPaints(t', s, idx + 1, Some((c.fg, c.bg)));
      PaintedOne(t, s, idx, Feed(t', rest));
    }
  }

  lemma CoversSame(t: Terminal, u: Terminal, s: Screen)
    requires t.grid.Keys == u.grid.Keys && Covers(t, s)
    ensures Covers(u, s)
  {
  }

  lemma PutKeeps(t: Terminal, cp: int, s: Screen)
    ensures var t' := Put(t, cp); t'.fg == t.fg && t'.bg == t.bg && t'.grid.Keys == t.grid.Keys
    ensures Covers(t, s) ==> Covers(Put(t, cp), s)
  {
  }

  lemma NothingPainted(t: Terminal, s: Screen, idx: nat)
    requires s.Sized() && s.width > 0 && Covers(t, s) && idx == |s.back|
    ensures Painted(t, t, s, idx)
  {
  }

  lemma SkipPainted(t: Terminal, after: Terminal, s: Screen, idx: nat)
    requires s.Sized() && s.width > 0 && idx < |s.back| && s.front[idx] == s.back[idx]
    requires Painted(t, after, s, idx + 1)
    ensures Painted(t, after, s, idx)
  {
  }

  // ---- Rendering is exact ----

  lemma {:induction false} FeedKeepsClean(t: Terminal, s: string)
    requires Bytes(s) && CleanGrid(t)
    ensures CleanGrid(Feed(t, s))
    decreases |s|
  {
    hide DecodeAt, ParamsOf;
    if s != "" {
      if s[0] == ESC {
        if |s| >= 2 && s[1] == '[' {
          var k := ParamRun(s[2..]);
          if 2 + k < |s| {
            FeedKeepsClean(Obey(t, ParamsOf(s[2..2 + k]), s[2 + k]), s[3 + k..]);
          }
        } else {
          FeedKeepsClean(t, s[1..]);
        }
      } else {
        var d := DecodeAt(s, 0);
        FeedKeepsClean(Put(t, d.cp), s[d.len..]);
      }
    }
  }

  // What holds of the screen and the terminal between any two calls.
  ghost predicate InStep(s: Screen, t: Terminal) {
    s.Sized() && Drawable(s.back) && Covers(t, s) && Synced(t, s) && CleanGrid(t)
  }

  // After a render the terminal shows exactly the printable cells of the back buffer.
  ghost predicate ShowsBack(s: Screen, t: Terminal) {
    s.width > 0 ==> forall i: nat :: i < |s.back| ==> (ShowsAt(t, s.width, i, s.back[i]) <==> Printable(s.back[i].ch))
  }

  lemma RenderIsExact(s: Screen, t: Terminal)
    requires InStep(s, t)
    ensures Bytes(Diff(s))
    ensures InStep(Rendered(s), Feed(t, Diff(s))) && ShowsBack(Rendered(s), Feed(t, Diff(s)))
  {
    hide DiffFrom, Feed;
    DiffIsBytes(s, 0, None);
    var t' := Feed(t, Diff(s));
    FeedKeepsClean(t, Diff(s));
    if s.width > 0 {
      DiffPaints(t, s, 0, None);
      CoversSame(t, t', s);
      forall i: nat | i < |s.back|
        ensures ShowsAt(t', s.width, i, s.back[i]) <==> Printable(s.back[i].ch)
      {
        assert Place(s.width, i) in t'.grid;
        if Printable(s.back[i].ch) && s.front[i] == s.back[i] {
          assert ShowsAt(t, s.width, i, s.front[i]);
        }
      }
    }
  }

  // Sending the differences has the same effect on every cell as sending the whole screen.
  lemma DiffRefinesRepaint(s: Screen, t: Terminal, i: nat)
    requires InStep(s, t) && s.width > 0 && i < |s.back|
    ensures var all := s.(front := Blanks(|s.front|, UNKNOWN));
            && Bytes(Diff(s)) && Bytes(Diff(all))
            && Place(s.width, i) in Feed(t, Diff(s)).grid && Place(s.width, i) in Feed(t, Diff(all)).grid
            && Feed(t, Diff(s)).grid[Place(s.width, i)] == Feed(t, Diff(all)).grid[Place(s.width, i)]
  {
    hide DiffFrom, Feed;
    var all := s.(front := Blanks(|s.front|, UNKNOWN));
    DiffPaints(t, s, 0, None);
    DiffPaints(t, all, 0, None);
    assert all.front[i].ch == UNKNOWN_CH && all.front[i] != all.back[i];
    if Printable(s.back[i].ch) && s.front[i] == s.back[i] {
      assert ShowsAt(t, s.width, i, s.front[i]);
    }
  }

  // ---- Whole runs ----

  // A change of size comes with whatever the terminal then shows.
  datatype Op =
    | DoResize(w: nat, h: nat, shown: Terminal)
    | DoClear
    | DoSet(x: int, y: int, c: Cell)
    | DoWrite(x: int, y: int, text: string, fg: Rgb, bg: Rgb, bold: bool)
    | DoRender

  ghost predicate Allowed(op: Op) {
    match op
    case DoResize(w, h, shown) =>
      CleanGrid(shown) && forall y, x :: 0 <= y < h && 0 <= x < w ==> (y, x) in shown.grid
    case DoSet(_, _, c) => 0 <= c.ch < CODE_POINTS
    case DoWrite(_, _, text, _, _, _) => Bytes(text)
    case _ => true
  }

  ghost function Perform(s: Screen, t: Terminal, op: Op): (Screen, Terminal)
    requires InStep(s, t) && Allowed(op)
  {
    match op
    case DoResize(w, h, shown) => (Resize(s, w, h), if w == s.width && h == s.height then t else shown)
    case DoClear => (Clear(s), t)
    case DoSet(x, y, c) => (SetCell(s, x, y, c), t)
    case DoWrite(x, y, text, fg, bg, bold) => (WriteText(s, x, y, text, fg, bg, bold), t)
    case DoRender =>
      RenderIsExact(s, t);
      (Rendered(s), Feed(t, Diff(s)))
  }

  lemma {:induction false} WriteKeeps(s: Screen, style: Style, pen: Pen, text: string, i: nat)
    requires s.Sized() && Drawable(s.back) && Bytes(text) && i <= |text|
    ensures var r := WriteFrom(s, style, pen, text, i);
            r == s.(back := r.back) && |r.back| == |s.back| && Drawable(r.back)
    decreases |text| - i
  {
    hide DecodeAt, PlaceOf, ColourAfter, EscapeEnd;
    if i < |text| {
      var end := EscapeEnd(text, i);
      if end.Some? {
        WriteKeeps(s, style, pen.(fg := ColourAfter(text[i + 2..end.value], pen.fg, style.fg)), text, end.value + 1);
      } else {
        var d := DecodeAt(text, i);
        var place := PlaceOf(s, style, pen, d.cp);
        if place.Some? {
          var (draws, cx, pen') := place.value;
          var c := Cell(d.cp, pen.fg, style.bg, style.bold);
          DrawKeeps(s, draws, cx, pen'.cy, c);
          WriteKeeps(DrawAt(s, draws, cx, pen'.cy, c), style, pen', text, i + d.len);
        }
      }
    }
  }

  lemma DrawKeeps(s: Screen, draws: bool, x: int, y: int, c: Cell)
    requires s.Sized() && Drawable(s.back) && 0 <= c.ch < CODE_POINTS
    ensures DrawAt(s, draws, x, y, c).Sized() && Drawable(DrawAt(s, draws, x, y, c).back)
  {
  }

  lemma NewSizeInStep(w: nat, h: nat, shown: Terminal)
    requires Allowed(DoResize(w, h, shown))
    ensures InStep(Screen(w, h, Blanks(w * h, UNKNOWN), Blanks(w * h, BLANK)), shown)
  {
    if w > 0 {
      forall i: nat | i < w * h
        ensures Place(w, i) in shown.grid
      {
        PlaceInRange(w, h, i);
      }
    }
  }

  lemma MulCancel(w: nat, a: nat, b: nat)
    requires w * a < w * b
    ensures a < b
  {
  }

  lemma PlaceInRange(w: nat, h: nat, i: nat)
    requires w > 0 && i < w * h
    ensures 0 <= i / w < h && 0 <= i % w < w
  {
    assert w * (i / w) <= i < w * h;
    MulCancel(w, i / w, h);
  }

  lemma StepKeepsInStep(s: Screen, t: Terminal, op: Op)
    requires InStep(s, t) && Allowed(op)
    ensures InStep(Perform(s, t, op).0, Perform(s, t, op).1)
  {
    match op
    case DoResize(w, h, shown) => NewSizeInStep(w, h, shown);
    case DoClear =>
    case DoSet(x, y, c) => DrawKeeps(s, true, x, y, c);
    case DoWrite(x, y, text, fg, bg, bold) => WriteKeeps(s, Style(x, fg, bg, bold), Pen(x, y, fg), text, 0);
    case DoRender => RenderIsExact(s, t);
  }

  // The states a run passes through stay in step, so it can always go on.
  ghost function Play(s: Screen, t: Terminal, ops: seq<Op>): (r: (Screen, Terminal))
    requires InStep(s, t) && forall k :: 0 <= k < |ops| ==> Allowed(ops[k])
    ensures InStep(r.0, r.1)
    decreases |ops|
  {
    if ops == [] then (s, t)
    else
      var (s', t') := Play(s, t, ops[..|ops| - 1]);
      StepKeepsInStep(s', t', ops[|ops| - 1]);
      Perform(s', t', ops[|ops| - 1])
  }

  // Over every run that ends with a render, from a new screen on any terminal: the front
  // buffer equals the back buffer, and the terminal shows every printable cell of it.
  lemma RunsEndExact(w: nat, h: nat, shown: Terminal, ops: seq<Op>)
    requires Allowed(DoResize(w, h, shown)) && forall k :: 0 <= k < |ops| ==> Allowed(ops[k])
    ensures InStep(Screen(w, h, Blanks(w * h, UNKNOWN), Blanks(w * h, BLANK)), shown)
    ensures var r := Play(Screen(w, h, Blanks(w * h, UNKNOWN), Blanks(w * h, BLANK)), shown, ops + [DoRender]);
            r.0.front == r.0.back && ShowsBack(r.0, r.1)
  {
    NewSizeInStep(w, h, shown);
    var start := Screen(w, h, Blanks(w * h, UNKNOWN), Blanks(w * h, BLANK));
    assert (ops + [DoRender])[..|ops|] == ops;
    var before := Play(start, shown, ops);
    RenderIsExact(before.0, before.1);
  }
}
