/** The kernel console: 80 by 25 cells that scroll. The class carries, as a ghost,
    the sheet a terminal without a bottom edge would have: it never scrolls, and
    places never written are blank. The screen always shows its last 25 lines. */
module Console {
  import opened Common

  /** vga_entry(c, VGA_DEFAULT_COLOR): white on black. */
  function Entry(c: char): nat { c as int + 0x0F00 }

  const BLANK: nat := 0x0F20

  /** `c >= ' '` for a signed char. */
  predicate Visible(c: char) { 32 <= c as int < 128 }

  /** cells: the places written so far, place y * 80 + x being column x of line y. */
  datatype Sheet = Sheet(cells: map<nat, nat>, x: nat, y: nat)

  const EMPTY := Sheet(map[], 0, 0)

  function At(s: Sheet, place: nat): nat { if place in s.cells then s.cells[place] else BLANK }

  function Newline(s: Sheet): Sheet { s.(x := 0, y := s.y + 1) }

  function Write(s: Sheet, c: char): Sheet
  {
    if c == '\n' then Newline(s)
    else if c == '\r' then s.(x := 0)
    else if c == '\t' then
      var stop := (s.x / 8 + 1) * 8;
      if stop >= WIDTH then Newline(s) else s.(x := stop)
    else if c == BS then
      if s.x > 0 then s.(cells := s.cells[s.y * WIDTH + s.x - 1 := BLANK], x := s.x - 1) else s
    else if Visible(c) then
      var t := s.(cells := s.cells[s.y * WIDTH + s.x := Entry(c)]);
      if s.x + 1 == WIDTH then Newline(t) else t.(x := s.x + 1)
    else s
  }

  function WriteAll(s: Sheet, data: seq<char>): Sheet
  {
    if data == [] then s else Write(WriteAll(s, data[..|data|-1]), data[|data|-1])
  }

  predicate SheetOk(s: Sheet)
  {
    s.x < WIDTH && forall p :: p in s.cells ==> p < (s.y + 1) * WIDTH
  }

  lemma WriteOk(s: Sheet, c: char)
    requires SheetOk(s)
    ensures SheetOk(Write(s, c)) && s.y <= Write(s, c).y <= s.y + 1
  {
  }

  /** Lines above the cursor are final. */
  lemma {:induction false} EarlierLinesKept(s: Sheet, data: seq<char>, place: nat)
    requires SheetOk(s) && place < s.y * WIDTH
    ensures At(WriteAll(s, data), place) == At(s, place)
    ensures SheetOk(WriteAll(s, data)) && s.y <= WriteAll(s, data).y
  {
    if data != [] {
      EarlierLinesKept(s, data[..|data|-1], place);
      WriteOk(WriteAll(s, data[..|data|-1]), data[|data|-1]);
    }
  }

  function PlaceOf(s: Sheet): nat { s.y * WIDTH + s.x }

  /** Visible text lands in consecutive places from the cursor on, across line
      ends, and nothing else on the sheet changes. */
  lemma {:induction false} VisibleText(s: Sheet, data: seq<char>)
    requires SheetOk(s) && forall i :: 0 <= i < |data| ==> Visible(data[i])
    ensures var t := WriteAll(s, data);
      && SheetOk(t) && PlaceOf(t) == PlaceOf(s) + |data|
      && (forall i :: 0 <= i < |data| ==> At(t, PlaceOf(s) + i) == Entry(data[i]))
      && (forall p: nat :: p < PlaceOf(s) || PlaceOf(s) + |data| <= p ==> At(t, p) == At(s, p))
  {
    if data != [] {
      VisibleText(s, data[..|data|-1]);
      VisibleOne(WriteAll(s, data[..|data|-1]), data[|data|-1]);
    }
  }

  lemma VisibleOne(s: Sheet, c: char)
    requires SheetOk(s) && Visible(c)
    ensures var t := Write(s, c);
      && SheetOk(t) && PlaceOf(t) == PlaceOf(s) + 1
      && (forall p: nat :: At(t, p) == if p == PlaceOf(s) then Entry(c) else At(s, p))
  {
  }

  /** An entry is the character below the attribute byte, white on black; a blank is
      the entry of a space. */
  lemma EntryParts(c: char)
    requires ' ' <= c <= 127 as char
    ensures Visible(c) && Entry(c) % 256 == c as int && Entry(c) / 256 == 0x0F && BLANK == Entry(' ')
  {
  }

  lemma {:induction false} WriteConcat(s: Sheet, a: seq<char>, b: seq<char>)
    ensures WriteAll(s, a + b) == WriteAll(WriteAll(s, a), b)
  {
    if b == [] {
      assert a + b == a;
    } else {
      assert (a + b)[..|a + b|-1] == a + b[..|b|-1];
      WriteConcat(s, a, b[..|b|-1]);
    }
  }

  lemma WriteOne(s: Sheet, c: char)
    ensures WriteAll(s, [c]) == Write(s, c)
  {
    assert [c][..0] == [];
  }

  /** Lines of text, each followed by a newline. */
  function Text(lines: seq<seq<char>>): seq<char>
  {
    if lines == [] then [] else Text(lines[..|lines|-1]) + (lines[|lines|-1] + ['\n'])
  }

  predicate VisibleLine(line: seq<char>) { |line| < 80 && forall i :: 0 <= i < |line| ==> Visible(line[i]) }

  /** Place p of a sheet s on which the lines have been written from column 0 of line
      y on. */
  function WithLines(s: Sheet, y: nat, lines: seq<seq<char>>, p: nat): nat
  {
    if y <= p / 80 < y + |lines| && p % 80 < |lines[p / 80 - y]| then Entry(lines[p / 80 - y][p % 80]) else At(s, p)
  }

  ghost predicate HasLines(s: Sheet, t: Sheet, y: nat, lines: seq<seq<char>>)
  {
    forall p: nat :: At(t, p) == WithLines(s, y, lines, p)
  }

  /** The same for text from place `from` on. */
  function WithText(s: Sheet, from: nat, data: seq<char>, p: nat): nat
  {
    if from <= p < from + |data| then Entry(data[p - from]) else At(s, p)
  }

  /** A newline ends a line: writing lines of fewer than 80 visible characters, each
      followed by a newline, puts line k at the start of line y + k, and changes nothing
      else; the cursor ends at the start of the line after the last. */
  lemma {:induction false} LinesOfText(s: Sheet, lines: seq<seq<char>>)
    requires SheetOk(s) && s.x == 0 && forall k :: 0 <= k < |lines| ==> VisibleLine(lines[k])
    ensures var t := WriteAll(s, Text(lines));
      SheetOk(t) && t.x == 0 && t.y == s.y + |lines| && HasLines(s, t, s.y, lines)
  {
    if lines != [] {
      var before, line := lines[..|lines|-1], lines[|lines|-1];
      LinesOfText(s, before);
      var u := WriteAll(s, Text(before));
      OneLine(u, line);
      WriteConcat(s, Text(before), line + ['\n']);
      LastLine(s, u, WriteAll(u, line + ['\n']), s.y, lines);
    }
  }

  lemma TextLands(s: Sheet, data: seq<char>)
    requires SheetOk(s) && forall i :: 0 <= i < |data| ==> Visible(data[i])
    ensures forall p: nat :: At(WriteAll(s, data), p) == WithText(s, PlaceOf(s), data, p)
  {
    var t, from := WriteAll(s, data), PlaceOf(s);
    VisibleText(s, data);
    forall p: nat ensures At(t, p) == WithText(s, from, data, p) {
      if from <= p < from + |data| { assert At(t, from + (p - from)) == Entry(data[p - from]); }
    }
  }

  lemma OneLine(s: Sheet, line: seq<char>)
    requires SheetOk(s) && s.x == 0 && VisibleLine(line)
    ensures var t := WriteAll(s, line + ['\n']);
      && SheetOk(t) && t.x == 0 && t.y == s.y + 1
      && forall p: nat :: At(t, p) == WithText(s, s.y * 80, line, p)
  {
    VisibleText(s, line);
    TextLands(s, line);
    WriteConcat(s, line, ['\n']);
    WriteOne(WriteAll(s, line), '\n');
  }

  lemma LastLine(s: Sheet, u: Sheet, t: Sheet, y: nat, lines: seq<seq<char>>)
    requires lines != [] && |lines[|lines|-1]| < 80 && HasLines(s, u, y, lines[..|lines|-1])
    requires forall p: nat :: At(t, p) == WithText(u, (y + |lines| - 1) * 80, lines[|lines|-1], p)
    ensures HasLines(s, t, y, lines)
  {
    forall p: nat ensures At(t, p) == WithLines(s, y, lines, p) {
      assert p == p / 80 * 80 + p % 80;
      assert At(u, p) == WithLines(s, y, lines[..|lines|-1], p);
    }
  }

  /** A line of exactly 80 characters wraps by itself, so its newline leaves the next
      line empty. */
  lemma FullLineSkipsOne(s: Sheet, line: seq<char>)
    requires SheetOk(s) && s.x == 0 && |line| == 80 && forall i :: 0 <= i < |line| ==> Visible(line[i])
    ensures var t := WriteAll(s, line + ['\n']); t.x == 0 && t.y == s.y + 2
  {
    VisibleText(s, line);
    WriteConcat(s, line, ['\n']);
    WriteOne(WriteAll(s, line), '\n');
  }

  /** After a carriage return, text overwrites the line from its first column, and
      nothing else. */
  lemma ReturnOverwrites(s: Sheet, data: seq<char>)
    requires SheetOk(s) && forall i :: 0 <= i < |data| ==> Visible(data[i])
    ensures var t := WriteAll(s, ['\r'] + data);
      && SheetOk(t) && PlaceOf(t) == s.y * 80 + |data|
      && (forall p: nat :: At(t, p) == WithText(s, s.y * 80, data, p))
  {
    WriteConcat(s, ['\r'], data);
    WriteOne(s, '\r');
    TextAtStart(s, Write(s, '\r'), data);
  }

  lemma TextAtStart(s: Sheet, u: Sheet, data: seq<char>)
    requires SheetOk(u) && u.cells == s.cells && u.x == 0 && u.y == s.y
    requires forall i :: 0 <= i < |data| ==> Visible(data[i])
    ensures var t := WriteAll(u, data);
      && SheetOk(t) && PlaceOf(t) == s.y * 80 + |data|
      && (forall p: nat :: At(t, p) == WithText(s, s.y * 80, data, p))
  {
    VisibleText(u, data);
    TextLands(u, data);
    SameText(u, s, s.y * 80, data);
  }

  lemma SameText(s: Sheet, t: Sheet, from: nat, data: seq<char>)
    requires s.cells == t.cells
    ensures forall p: nat :: WithText(s, from, data, p) == WithText(t, from, data, p)
  {
  }

  /** A tab writes nothing and takes the cursor to the next place that is a multiple of
      8; a line has a whole number of stops, so from the last one that is the start of
      the next line. */
  lemma TabToNextStop(s: Sheet)
    requires SheetOk(s)
    ensures var t := Write(s, '\t');
      && SheetOk(t) && t.cells == s.cells
      && PlaceOf(t) % 8 == 0 && PlaceOf(s) < PlaceOf(t) <= PlaceOf(s) + 8
  {
    var q := s.x / 8;
    StopPlace(s.x, s.y, q);
    assert PlaceOf(Write(s, '\t')) == 8 * (10 * s.y + q + 1);
  }

  lemma StopPlace(x: nat, y: nat, q: nat)
    requires q == x / 8 && x < 80
    ensures 8 * q <= x < 8 * q + 8 && q < 10 && 8 * (10 * y + q + 1) % 8 == 0
  {
  }

  /** Backspace blanks the place before the cursor and goes there, but not past the
      start of the line: a visible character that does not end its line is erased
      without other trace. */
  lemma BackspaceErases(s: Sheet, c: char)
    requires SheetOk(s) && Visible(c)
    ensures s.x == 0 ==> Write(s, BS) == s
    ensures s.x < 79 ==>
      var t := Write(Write(s, c), BS);
      t.x == s.x && t.y == s.y && forall p: nat :: At(t, p) == if p == PlaceOf(s) then BLANK else At(s, p)
    ensures s.x == 79 ==> Write(Write(s, c), BS) == Write(s, c)
  {
  }

  /** Every other character is ignored. */
  lemma OthersIgnored(s: Sheet, c: char)
    requires c != '\n' && c != '\r' && c != '\t' && c != BS && !(' ' <= c <= 127 as char)
    ensures Write(s, c) == s
  {
  }

  /** First line on the screen. */
  function Top(s: Sheet): nat { if s.y < HEIGHT then 0 else s.y - (HEIGHT - 1) }

  /** The cells b show the sheet from line `top` on. */
  predicate Window(b: seq<nat>, s: Sheet, top: nat)
  {
    |b| == CELLS && forall i :: 0 <= i < CELLS ==> b[i] == At(s, top * WIDTH + i)
  }

  lemma WindowStore(b: seq<nat>, s: Sheet, top: nat, i: nat, v: nat)
    requires Window(b, s, top) && i < CELLS
    ensures Window(b[i := v], s.(cells := s.cells[top * WIDTH + i := v]), top)
  {
  }

  lemma WindowSame(b: seq<nat>, s: Sheet, t: Sheet, top: nat)
    requires Window(b, s, top) && t.cells == s.cells
    ensures Window(b, t, top)
  {
  }

  /** b' is b one line up, the last line blank. */
  predicate Scrolled(b: seq<nat>, b': seq<nat>)
  {
    |b| == |b'| == CELLS && forall i :: 0 <= i < CELLS ==> b'[i] == if i < CELLS - WIDTH then b[i + WIDTH] else BLANK
  }

  lemma WindowScroll(b: seq<nat>, b': seq<nat>, t: Sheet, top: nat)
    requires Window(b, t, top) && Scrolled(b, b') && forall p :: p in t.cells ==> p < (top + HEIGHT) * WIDTH
    ensures Window(b', t, top + 1)
  {
    forall i | 0 <= i < CELLS ensures b'[i] == At(t, (top + 1) * WIDTH + i) {
      if i < CELLS - WIDTH { assert b[i + WIDTH] == At(t, top * WIDTH + (i + WIDTH)); }
    }
  }

  /** The window starts at line `top`, or is about to move on by one: then nothing
      has been written below it yet. */
  predicate TopRule(top: nat, t: Sheet)
  {
    && top <= t.y <= top + HEIGHT
    && (t.y < top + HEIGHT ==> Top(t) == top)
    && (t.y == top + HEIGHT ==> Top(t) == top + 1 && forall p :: p in t.cells ==> p < (top + HEIGHT) * WIDTH)
  }

  lemma TopMoves(s: Sheet, c: char)
    requires SheetOk(s)
    ensures TopRule(Top(s), Write(s, c))
  {
  }

  /** What is true once the cursor of sheet t is at (x, y) of a window that still
      starts at line `top`. */
  predicate Placed(b: seq<nat>, x: nat, y: nat, top: nat, t: Sheet)
  {
    SheetOk(t) && x == t.x && top + y == t.y && TopRule(top, t) && Window(b, t, top)
  }

  class Display {
    const buffer: array<nat>
    var cursorX: nat
    var cursorY: nat
    ghost var sheet: Sheet

    /** The screen shows the last 25 lines of the sheet. */
    ghost predicate Valid()
      reads this, buffer
    {
      && buffer.Length == CELLS && SheetOk(sheet)
      && cursorX == sheet.x && cursorY == sheet.y - Top(sheet) && cursorY < HEIGHT
      && Window(buffer[..], sheet, Top(sheet))
    }

    constructor ()
      ensures Valid() && fresh(buffer) && sheet == EMPTY
    {
      buffer := new nat[CELLS](i => BLANK);
      cursorX, cursorY := 0, 0;
      sheet := EMPTY;
    }

    method ClearScreen()
      requires buffer.Length == CELLS
      modifies this, buffer
      ensures Valid() && sheet == EMPTY
    {
      for i := 0 to CELLS
        invariant forall k :: 0 <= k < i ==> buffer[k] == BLANK
      {
        buffer[i] := BLANK;
      }
      cursorX, cursorY := 0, 0;
      sheet := EMPTY;
    }

    /** One line up, the last one blank. */
    method ScrollScreen()
      requires buffer.Length == CELLS
      modifies `cursorY, buffer
      ensures cursorY == HEIGHT - 1 && Scrolled(old(buffer[..]), buffer[..])
    {
      ghost var b := buffer[..];
      for i := 0 to (HEIGHT - 1) * WIDTH
        invariant forall k :: 0 <= k < i ==> buffer[k] == b[k + WIDTH]
        invariant forall k :: i <= k < CELLS ==> buffer[k] == b[k]
      {
        buffer[i] := buffer[i + WIDTH];
      }
      for i := (HEIGHT - 1) * WIDTH to HEIGHT * WIDTH
        invariant forall k :: 0 <= k < (HEIGHT - 1) * WIDTH ==> buffer[k] == b[k + WIDTH]
        invariant forall k :: (HEIGHT - 1) * WIDTH <= k < i ==> buffer[k] == BLANK
      {
        buffer[i] := BLANK;
      }
      cursorY := HEIGHT - 1;
    }

    method PutChar(c: char)
      requires Valid()
      modifies this, buffer
      ensures Valid() && sheet == Write(old(sheet), c)
    {
      ghost var top, t := Top(sheet), Write(sheet, c);
      Switch(c);
      if cursorX >= WIDTH {
        cursorX := 0;
        cursorY := cursorY + 1;
      }
      Settle(top, t);
    }

    /** Valid for sheet t, but for the wrap and scroll that end screen_putchar. */
    ghost predicate Pending(top: nat, t: Sheet)
      reads this, buffer
    {
      if cursorX < WIDTH then Placed(buffer[..], cursorX, cursorY, top, t)
      else Placed(buffer[..], 0, cursorY + 1, top, t)
    }

    method Switch(c: char)
      requires Valid()
      modifies `cursorX, `cursorY, buffer
      ensures Pending(Top(sheet), Write(sheet, c))
    {
      if c == BS {
        Erase();
      } else if 32 <= c as int < 128 {
        Show(c);
      } else {
        Control(c);
      }
    }

    /** Line end, carriage return and tab; other controls are ignored. */
    method Control(c: char)
      requires Valid() && c != BS && !Visible(c)
      modifies `cursorX, `cursorY
      ensures Pending(Top(sheet), Write(sheet, c))
    {
      WriteOk(sheet, c);
      TopMoves(sheet, c);
      WindowSame(buffer[..], sheet, Write(sheet, c), Top(sheet));
      if c == '\n' {
        cursorX := 0;
        cursorY := cursorY + 1;
      } else if c == '\r' {
        cursorX := 0;
      } else if c == '\t' {
        cursorX := (cursorX + 8) / 8 * 8;
        if cursorX >= WIDTH {
          cursorX := 0;
          cursorY := cursorY + 1;
        }
      }
    }

    method Erase()
      requires Valid()
      modifies `cursorX, buffer
      ensures Pending(Top(sheet), Write(sheet, BS))
    {
      WriteOk(sheet, BS);
      TopMoves(sheet, BS);
      if cursorX > 0 {
        cursorX := cursorX - 1;
        PutEntry(BLANK);
      }
    }

    method Show(c: char)
      requires Valid() && Visible(c)
      modifies `cursorX, buffer
      ensures Pending(Top(sheet), Write(sheet, c))
    {
      WriteOk(sheet, c);
      TopMoves(sheet, c);
      ghost var marked := sheet.(cells := sheet.cells[(Top(sheet) + cursorY) * WIDTH + cursorX := Entry(c)]);
      PutEntry(Entry(c));
      WindowSame(buffer[..], marked, Write(sheet, c), Top(sheet));
      cursorX := cursorX + 1;
    }

    /** Writes the cell under the cursor. */
    method PutEntry(v: nat)
      requires buffer.Length == CELLS && cursorX < WIDTH && cursorY < HEIGHT
      requires Window(buffer[..], sheet, Top(sheet))
      modifies buffer
      ensures Window(buffer[..], sheet.(cells := sheet.cells[(Top(sheet) + cursorY) * WIDTH + cursorX := v]), Top(sheet))
    {
      ghost var b := buffer[..];
      var pos := cursorY * WIDTH + cursorX;
      WindowStore(b, sheet, Top(sheet), pos, v);
      buffer[pos] := v;
      assert buffer[..] == b[pos := v];
    }

    /** The scroll when the cursor has left the screen. */
    method Settle(ghost top: nat, ghost t: Sheet)
      requires buffer.Length == CELLS && Placed(buffer[..], cursorX, cursorY, top, t)
      modifies this, buffer
      ensures Valid() && sheet == t
    {
      if cursorY >= HEIGHT {
        ghost var b := buffer[..];
        ScrollScreen();
        WindowScroll(b, buffer[..], t, top);
      }
      sheet := t;
    }

    method WriteConsole(data: seq<char>) returns (len: nat)
      requires Valid()
      modifies this, buffer
      ensures Valid() && len == |data|
      ensures sheet == WriteAll(old(sheet), data)
    {
      for i := 0 to |data|
        invariant Valid() && sheet == WriteAll(old(sheet), data[..i])
      {
        assert data[..i+1][..i] == data[..i];
        PutChar(data[i]);
      }
      assert data[..|data|] == data;
      len := |data|;
    }
  }
}
