/** The VGA text screen as a value: what each driver operation does to the 80 by
    25 cells and the cursor, and the unbounded page of which the screen shows the
    last 25 lines. */
module VgaScreen {
  import opened Common

  const TAB: nat := 8

  type Color = c: nat | c < 16

  datatype Cell = Cell(character: char, color: nat)

  datatype Screen = Screen(buf: seq<Cell>, x: nat, y: nat, fg: Color, bg: Color, color: nat, autoScroll: bool)

  /** Cursor and buffer are in range. */
  predicate Ok(v: Screen)
  {
    |v.buf| == CELLS && v.x < WIDTH && v.y < HEIGHT
  }

  function MakeColor(fg: Color, bg: Color): nat { fg + 16 * bg }

  function Blanks(n: nat, color: nat): (r: seq<Cell>)
    ensures |r| == n && forall i :: 0 <= i < n ==> r[i] == Cell(' ', color)
  {
    seq(n, i => Cell(' ', color))
  }

  predicate Printable(ch: char) { ' ' <= ch <= '~' }

  // ---- Driver operations --------------------------------------------------

  function SetColor(v: Screen, fg: Color, bg: Color): Screen
  {
    v.(fg := fg, bg := bg, color := MakeColor(fg, bg))
  }

  function SetCursor(v: Screen, x: nat, y: nat): Screen
  {
    v.(x := if x >= WIDTH then WIDTH - 1 else x, y := if y >= HEIGHT then HEIGHT - 1 else y)
  }

  function Clear(v: Screen): Screen
  {
    SetCursor(v.(buf := Blanks(CELLS, v.color)), 0, 0)
  }

  function ScrollLine(v: Screen): Screen
    requires Ok(v)
  {
    v.(buf := v.buf[WIDTH..] + Blanks(WIDTH, v.color))
  }

  function ScrollLines(v: Screen, lines: nat): Screen
    requires Ok(v)
  {
    if lines == 0 then v
    else if lines >= HEIGHT then Clear(v)
    else v.(buf := v.buf[lines * WIDTH..] + Blanks(lines * WIDTH, v.color))
  }

  function NewLine(v: Screen): (r: Screen)
    requires |v.buf| == CELLS && v.y < HEIGHT
    ensures Ok(r)
  {
    if v.y + 1 >= HEIGHT then
      if v.autoScroll then ScrollLine(v.(x := 0)).(y := HEIGHT - 1) else v.(x := 0, y := HEIGHT - 1)
    else v.(x := 0, y := v.y + 1)
  }

  function PutAt(v: Screen, x: nat, y: nat, ch: char, color: nat): Screen
    requires Ok(v)
  {
    if x >= WIDTH || y >= HEIGHT then v else v.(buf := v.buf[y * WIDTH + x := Cell(ch, color)])
  }

  function Backspace(v: Screen): (r: Screen)
    requires Ok(v)
    ensures Ok(r)
  {
    if v.x > 0 then PutAt(v.(x := v.x - 1), v.x - 1, v.y, ' ', v.color)
    else if v.y > 0 then PutAt(v.(x := WIDTH - 1, y := v.y - 1), WIDTH - 1, v.y - 1, ' ', v.color)
    else v
  }

  function PutPrintable(v: Screen, ch: char): (r: Screen)
    requires Ok(v)
    ensures Ok(r)
  {
    var w := PutAt(v, v.x, v.y, ch, v.color);
    if v.x + 1 >= WIDTH then NewLine(w) else w.(x := v.x + 1)
  }

  function PutSpaces(v: Screen, n: nat): (r: Screen)
    requires Ok(v)
    ensures Ok(r)
  {
    if n == 0 then v else PutPrintable(PutSpaces(v, n - 1), ' ')
  }

  /** The guard of vga_tab's loop. */
  predicate TabGuard(v: Screen, next: nat) { v.x < next && v.x < WIDTH }

  function NextTab(x: nat): nat { (x / TAB + 1) * TAB }

  /** A tab is only safe to print before column 72: see TabEnds. */
  predicate CanPut(v: Screen, ch: char) { ch == '\t' ==> v.x < WIDTH - TAB }

  function PutChar(v: Screen, ch: char): (r: Screen)
    requires Ok(v) && CanPut(v, ch)
    ensures Ok(r)
  {
    if ch == '\n' then NewLine(v)
    else if ch == '\t' then PutSpaces(v, TAB - v.x % TAB)
    else if ch == BS then Backspace(v)
    else if ch == '\r' then SetCursor(v, 0, v.y)
    else if Printable(ch) then PutPrintable(v, ch)
    else v
  }

  predicate CanPutAll(v: Screen, s: seq<char>)
    requires Ok(v)
    decreases |s|
  {
    s == [] || (CanPut(v, s[0]) && CanPutAll(PutChar(v, s[0]), s[1..]))
  }

  function PutAll(v: Screen, s: seq<char>): (r: Screen)
    requires Ok(v) && CanPutAll(v, s)
    ensures Ok(r)
    decreases |s|
  {
    if s == [] then v else PutAll(PutChar(v, s[0]), s[1..])
  }

  // ---- vga_tab ------------------------------------------------------------

  lemma {:induction false} SpacesAdvance(v: Screen, n: nat)
    requires Ok(v) && v.x + n < WIDTH
    ensures PutSpaces(v, n).x == v.x + n && PutSpaces(v, n).y == v.y
  {
    if n > 0 { SpacesAdvance(v, n - 1); }
  }

  /** vga_tab's loop ends if and only if the cursor is before column 72: from there
      on the next tab stop is 80, which the wrapping cursor never reaches. */
  lemma TabEnds(v: Screen)
    requires Ok(v)
    ensures (exists n: nat :: TabDone(v, n)) <==> v.x < WIDTH - TAB
    ensures v.x < WIDTH - TAB ==>
      && TabDone(v, TAB - v.x % TAB) && PutSpaces(v, TAB - v.x % TAB).x == NextTab(v.x)
      && forall n: nat :: n < TAB - v.x % TAB ==> !TabDone(v, n)
  {
    if v.x < WIDTH - TAB {
      SpacesAdvance(v, TAB - v.x % TAB);
      forall n: nat | n < TAB - v.x % TAB ensures !TabDone(v, n) { SpacesAdvance(v, n); }
      assert TabDone(v, TAB - v.x % TAB);
    }
  }

  predicate TabDone(v: Screen, n: nat)
    requires Ok(v)
  {
    !TabGuard(PutSpaces(v, n), NextTab(v.x))
  }

  // ---- Scrolling ----------------------------------------------------------

  function ScrollTimes(v: Screen, n: nat): (r: Screen)
    requires Ok(v)
    ensures Ok(r) && r.color == v.color && r.x == v.x && r.y == v.y
  {
    if n == 0 then v else ScrollLine(ScrollTimes(v, n - 1))
  }

  lemma {:induction false} ScrollTimesBuffer(v: Screen, n: nat)
    requires Ok(v)
    ensures ScrollTimes(v, n).buf ==
      if n >= HEIGHT then Blanks(CELLS, v.color) else v.buf[n * WIDTH..] + Blanks(n * WIDTH, v.color)
  {
    if n > 0 {
      ScrollTimesBuffer(v, n - 1);
      var before := ScrollTimes(v, n - 1).buf;
      forall i | 0 <= i < CELLS ensures ScrollTimes(v, n).buf[i] ==
        if i + n * WIDTH < CELLS then v.buf[i + n * WIDTH] else Cell(' ', v.color)
      {
        if i < CELLS - WIDTH { assert ScrollTimes(v, n).buf[i] == before[i + WIDTH]; }
      }
    }
  }

  /** vga_scroll_lines(n) leaves the buffer that n single scrolls leave, for every
      n; it also leaves the cursor alone except when it clears: from 25 lines on
      the cursor goes home. */
  lemma ScrollLinesIsRepeated(v: Screen, n: nat)
    requires Ok(v)
    ensures ScrollLines(v, n).buf == ScrollTimes(v, n).buf
    ensures ScrollLines(v, n) == ScrollTimes(v, n) <==> n < HEIGHT || (v.x == 0 && v.y == 0)
  {
    ScrollTimesBuffer(v, n);
    ScrollTimesRest(v, n);
    if n == 0 { assert v.buf[0..] + Blanks(0, v.color) == v.buf; }
  }

  lemma {:induction false} ScrollTimesRest(v: Screen, n: nat)
    requires Ok(v)
    ensures ScrollTimes(v, n) == v.(buf := ScrollTimes(v, n).buf)
  {
    if n > 0 { ScrollTimesRest(v, n - 1); }
  }

  // ---- The unbounded page -------------------------------------------------

  /** Everything ever written, never scrolled: lines of 80 cells, at least 25 of
      them, and the cursor, which stays within the last 25. */
  datatype Page = Page(cells: seq<Cell>, x: nat, y: nat)

  function Lines(p: Page): nat { |p.cells| / WIDTH }

  predicate PageOk(p: Page)
  {
    |p.cells| % WIDTH == 0 && HEIGHT <= Lines(p) && p.x < WIDTH && Lines(p) - HEIGHT <= p.y < Lines(p)
  }

  /** First line that is visible. */
  function Top(p: Page): nat
    requires PageOk(p)
  {
    Lines(p) - HEIGHT
  }

  function PageNewLine(p: Page, color: nat): (r: Page)
    requires PageOk(p)
    ensures PageOk(r)
  {
    if p.y + 1 == Lines(p) then Page(p.cells + Blanks(WIDTH, color), 0, p.y + 1) else p.(x := 0, y := p.y + 1)
  }

  function Write(p: Page, x: nat, y: nat, ch: char, color: nat): (r: Page)
    requires PageOk(p) && x < WIDTH && y < Lines(p)
    ensures |r.cells| == |p.cells|
  {
    p.(cells := p.cells[y * WIDTH + x := Cell(ch, color)])
  }

  function PagePrintable(p: Page, color: nat, ch: char): (r: Page)
    requires PageOk(p)
    ensures PageOk(r)
  {
    var q := Write(p, p.x, p.y, ch, color);
    if p.x + 1 == WIDTH then PageNewLine(q, color) else q.(x := p.x + 1)
  }

  function PageSpaces(p: Page, color: nat, n: nat): (r: Page)
    requires PageOk(p)
    ensures PageOk(r)
  {
    if n == 0 then p else PagePrintable(PageSpaces(p, color, n - 1), color, ' ')
  }

  function PageChar(p: Page, color: nat, ch: char): (r: Page)
    requires PageOk(p)
    ensures PageOk(r)
  {
    if ch == '\n' then PageNewLine(p, color)
    else if ch == '\t' then PageSpaces(p, color, TAB - p.x % TAB)
    else if ch == BS then
      if p.x > 0 then Write(p, p.x - 1, p.y, ' ', color).(x := p.x - 1)
      else if p.y > Top(p) then Write(p, WIDTH - 1, p.y - 1, ' ', color).(x := WIDTH - 1, y := p.y - 1)
      else p
    else if ch == '\r' then p.(x := 0)
    else if Printable(ch) then PagePrintable(p, color, ch)
    else p
  }

  function PageAll(p: Page, color: nat, s: seq<char>): (r: Page)
    requires PageOk(p)
    ensures PageOk(r)
    decreases |s|
  {
    if s == [] then p else PageAll(PageChar(p, color, s[0]), color, s[1..])
  }

  /** The screen shows the last 25 lines of the page, with the same cursor. */
  predicate Shows(v: Screen, p: Page)
  {
    && Ok(v) && PageOk(p) && v.autoScroll
    && v.buf == p.cells[|p.cells| - CELLS..]
    && v.x == p.x && v.y == p.y - Top(p)
  }

  lemma ShowsNewLine(v: Screen, p: Page)
    requires Shows(v, p)
    ensures Shows(NewLine(v), PageNewLine(p, v.color))
  {
    if v.y + 1 == HEIGHT {
      var q := PageNewLine(p, v.color);
      assert p.y + 1 == Lines(p);
      assert q.cells[|q.cells| - CELLS..] == p.cells[|p.cells| - CELLS..][WIDTH..] + Blanks(WIDTH, v.color);
    }
  }

  lemma ShowsWrite(v: Screen, p: Page, x: nat, y: nat, ch: char)
    requires Shows(v, p) && x < WIDTH && y < HEIGHT
    ensures PutAt(v, x, y, ch, v.color).buf ==
      Write(p, x, y + Top(p), ch, v.color).cells[|p.cells| - CELLS..]
  {
  }

  lemma ShowsPrintable(v: Screen, p: Page, ch: char)
    requires Shows(v, p)
    ensures Shows(PutPrintable(v, ch), PagePrintable(p, v.color, ch))
    ensures PutPrintable(v, ch).color == v.color
  {
    ShowsWrite(v, p, v.x, v.y, ch);
    var w, q := PutAt(v, v.x, v.y, ch, v.color), Write(p, p.x, p.y, ch, v.color);
    assert Shows(w, q);
    if v.x + 1 == WIDTH { ShowsNewLine(w, q); }
  }

  lemma {:induction false} ShowsSpaces(v: Screen, p: Page, n: nat)
    requires Shows(v, p)
    ensures Shows(PutSpaces(v, n), PageSpaces(p, v.color, n))
    ensures PutSpaces(v, n).color == v.color
  {
    if n > 0 {
      ShowsSpaces(v, p, n - 1);
      ShowsPrintable(PutSpaces(v, n - 1), PageSpaces(p, v.color, n - 1), ' ');
    }
  }

  lemma ShowsBackspace(v: Screen, p: Page)
    requires Shows(v, p)
    ensures Shows(Backspace(v), PageChar(p, v.color, BS)) && Backspace(v).color == v.color
  {
    if v.x > 0 {
      ShowsWrite(v, p, v.x - 1, v.y, ' ');
    } else if v.y > 0 {
      ShowsWrite(v, p, WIDTH - 1, v.y - 1, ' ');
    }
  }

  lemma ShowsChar(v: Screen, p: Page, ch: char)
    requires Shows(v, p) && CanPut(v, ch)
    ensures Shows(PutChar(v, ch), PageChar(p, v.color, ch))
    ensures PutChar(v, ch).color == v.color
  {
    if ch == '\n' {
      ShowsNewLine(v, p);
    } else if ch == '\t' {
      ShowsSpaces(v, p, TAB - v.x % TAB);
    } else if ch == BS {
      ShowsBackspace(v, p);
    } else if Printable(ch) {
      ShowsPrintable(v, p, ch);
    }
  }

  /** Whatever is printed, the screen is the bottom window of the page, and the
      cursor is in range. */
  lemma {:induction false} ShowsAll(v: Screen, p: Page, s: seq<char>)
    requires Shows(v, p) && CanPutAll(v, s)
    ensures Shows(PutAll(v, s), PageAll(p, v.color, s))
    decreases |s|
  {
    if s != [] {
      ShowsChar(v, p, s[0]);
      ShowsAll(PutChar(v, s[0]), PageChar(p, v.color, s[0]), s[1..]);
    }
  }

  lemma {:induction false} PageAllNext(p: Page, color: nat, s: seq<char>, ch: char)
    requires PageOk(p)
    ensures PageAll(p, color, s + [ch]) == PageChar(PageAll(p, color, s), color, ch)
    decreases |s|
  {
    if s == [] {
      assert [ch][1..] == [];
      assert [] + [ch] == [ch];
    } else {
      assert (s + [ch])[1..] == s[1..] + [ch];
      PageAllNext(PageChar(p, color, s[0]), color, s[1..], ch);
    }
  }

  /** What has scrolled off is never changed again. */
  predicate KeepsScrollback(p: Page, q: Page)
    requires PageOk(p) && PageOk(q)
  {
    Top(p) <= Top(q) && forall i :: 0 <= i < Top(p) * WIDTH ==> q.cells[i] == p.cells[i]
  }

  lemma ScrollbackPrintable(p: Page, color: nat, ch: char)
    requires PageOk(p)
    ensures KeepsScrollback(p, PagePrintable(p, color, ch))
  {
  }

  lemma {:induction false} ScrollbackSpaces(p: Page, color: nat, n: nat)
    requires PageOk(p)
    ensures KeepsScrollback(p, PageSpaces(p, color, n))
  {
    if n > 0 {
      ScrollbackSpaces(p, color, n - 1);
      ScrollbackPrintable(PageSpaces(p, color, n - 1), color, ' ');
    }
  }

  lemma {:induction false} ScrollbackAll(p: Page, color: nat, s: seq<char>)
    requires PageOk(p)
    ensures KeepsScrollback(p, PageAll(p, color, s))
    decreases |s|
  {
    if s != [] {
      var q := PageChar(p, color, s[0]);
      if s[0] == '\t' { ScrollbackSpaces(p, color, TAB - p.x % TAB); }
      ScrollbackAll(q, color, s[1..]);
    }
  }

  function Place(p: Page): nat { p.y * WIDTH + p.x }

  /** The cells from `at` on show text s. */
  predicate Written(cells: seq<Cell>, at: nat, s: seq<char>, color: nat)
  {
    at + |s| <= |cells| && forall k :: at <= k < at + |s| ==> cells[k] == Cell(s[k - at], color)
  }

  /** No other cell changed. */
  predicate SameElsewhere(before: seq<Cell>, after: seq<Cell>, at: nat, n: nat)
  {
    |before| <= |after| && forall k :: 0 <= k < |before| && !(at <= k < at + n) ==> after[k] == before[k]
  }

  lemma WrittenNext(p: Page, color: nat, ch: char)
    requires PageOk(p) && Printable(ch)
    ensures var q := PagePrintable(p, color, ch);
      && Place(q) == Place(p) + 1 && Written(q.cells, Place(p), [ch], color)
      && SameElsewhere(p.cells, q.cells, Place(p), 1)
  {
  }

  lemma WrittenJoins(a: seq<Cell>, b: seq<Cell>, c: seq<Cell>, at: nat, s: seq<char>, color: nat)
    requires s != [] && Written(b, at, [s[0]], color) && SameElsewhere(a, b, at, 1)
    requires Written(c, at + 1, s[1..], color) && SameElsewhere(b, c, at + 1, |s| - 1)
    ensures Written(c, at, s, color) && SameElsewhere(a, c, at, |s|)
  {
    assert c[at] == b[at];
    forall k | at < k < at + |s| ensures c[k] == Cell(s[k - at], color) {
      assert s[1..][k - (at + 1)] == s[k - at];
    }
  }

  /** Printable text lands in consecutive cells from the cursor on, lines and
      scrolling notwithstanding, and nothing else on the page changes. */
  lemma {:induction false} PrintableText(p: Page, color: nat, s: seq<char>)
    requires PageOk(p) && forall i :: 0 <= i < |s| ==> Printable(s[i])
    ensures var q := PageAll(p, color, s);
      && Place(q) == Place(p) + |s|
      && Written(q.cells, Place(p), s, color) && SameElsewhere(p.cells, q.cells, Place(p), |s|)
    decreases |s|
  {
    if s != [] {
      var mid := PagePrintable(p, color, s[0]);
      WrittenNext(p, color, s[0]);
      PrintableText(mid, color, s[1..]);
      WrittenJoins(p.cells, mid.cells, PageAll(mid, color, s[1..]).cells, Place(p), s, color);
    }
  }

  // ---- What each character does to the page -------------------------------

  /** Cell `at` of a page that goes on below with blanks. */
  function CellAt(p: Page, color: nat, at: nat): Cell
  {
    if at < |p.cells| then p.cells[at] else Cell(' ', color)
  }

  /** The same with text s written from cell `from` on. */
  function WithText(p: Page, color: nat, from: nat, s: seq<char>, at: nat): Cell
  {
    if from <= at < from + |s| then Cell(s[at - from], color) else CellAt(p, color, at)
  }

  ghost predicate HasText(p: Page, q: Page, color: nat, from: nat, s: seq<char>)
  {
    forall at: nat :: CellAt(q, color, at) == WithText(p, color, from, s, at)
  }

  lemma PrintableCell(p: Page, color: nat, ch: char)
    requires PageOk(p) && Printable(ch)
    ensures HasText(p, PagePrintable(p, color, ch), color, Place(p), [ch])
    ensures Place(PagePrintable(p, color, ch)) == Place(p) + 1
  {
  }

  lemma TextJoins(p: Page, q: Page, r: Page, color: nat, from: nat, ch: char, s: seq<char>)
    requires HasText(p, q, color, from, [ch]) && HasText(q, r, color, from + 1, s)
    ensures HasText(p, r, color, from, [ch] + s)
  {
    forall at: nat ensures CellAt(r, color, at) == WithText(p, color, from, [ch] + s, at) {
      assert CellAt(r, color, at) == WithText(q, color, from + 1, s, at);
      assert CellAt(q, color, at) == WithText(p, color, from, [ch], at);
    }
  }

  /** Printable text fills the cells from the cursor on; new lines are blank. */
  lemma {:induction false} TextCells(p: Page, color: nat, s: seq<char>)
    requires PageOk(p) && forall i :: 0 <= i < |s| ==> Printable(s[i])
    ensures HasText(p, PageAll(p, color, s), color, Place(p), s) && Place(PageAll(p, color, s)) == Place(p) + |s|
    decreases |s|
  {
    if s != [] {
      var q := PagePrintable(p, color, s[0]);
      PrintableCell(p, color, s[0]);
      TextCells(q, color, s[1..]);
      TextJoins(p, q, PageAll(q, color, s[1..]), color, Place(p), s[0], s[1..]);
      assert [s[0]] + s[1..] == s;
    }
  }

  lemma {:induction false} PageConcat(p: Page, color: nat, a: seq<char>, b: seq<char>)
    requires PageOk(p)
    ensures PageAll(p, color, a + b) == PageAll(PageAll(p, color, a), color, b)
    decreases |a|
  {
    if a == [] {
      assert a + b == b;
    } else {
      assert (a + b)[1..] == a[1..] + b;
      PageConcat(PageChar(p, color, a[0]), color, a[1..], b);
    }
  }

  lemma PageOne(p: Page, color: nat, ch: char)
    requires PageOk(p)
    ensures PageAll(p, color, [ch]) == PageChar(p, color, ch)
  {
    assert [ch][1..] == [];
  }

  /** A newline writes nothing and goes to the start of the next line. */
  lemma NewlineCells(p: Page, color: nat)
    requires PageOk(p)
    ensures var q := PageChar(p, color, '\n'); Place(q) == (p.y + 1) * 80 && HasText(p, q, color, 0, [])
  {
  }

  /** Lines of text, each followed by a newline. */
  function Text(lines: seq<seq<char>>): seq<char>
  {
    if lines == [] then [] else Text(lines[..|lines|-1]) + (lines[|lines|-1] + ['\n'])
  }

  predicate PrintableLine(line: seq<char>) { |line| < 80 && forall i :: 0 <= i < |line| ==> Printable(line[i]) }

  /** Cell `at` of a page on which the lines have been written from line y on. */
  function WithLines(p: Page, color: nat, y: nat, lines: seq<seq<char>>, at: nat): Cell
  {
    if y <= at / 80 < y + |lines| && at % 80 < |lines[at / 80 - y]| then Cell(lines[at / 80 - y][at % 80], color)
    else CellAt(p, color, at)
  }

  ghost predicate HasLines(p: Page, q: Page, color: nat, y: nat, lines: seq<seq<char>>)
  {
    forall at: nat :: CellAt(q, color, at) == WithLines(p, color, y, lines, at)
  }

  /** Lines of fewer than 80 characters, each followed by a newline, stand one below
      the other from column 0 on, nothing else changes, and the cursor ends at the start
      of the line after the last. */
  lemma {:induction false} LinesOfText(p: Page, color: nat, lines: seq<seq<char>>)
    requires PageOk(p) && p.x == 0 && forall k :: 0 <= k < |lines| ==> PrintableLine(lines[k])
    ensures var q := PageAll(p, color, Text(lines));
      q.x == 0 && q.y == p.y + |lines| && HasLines(p, q, color, p.y, lines)
  {
    if lines != [] {
      var before, line := lines[..|lines|-1], lines[|lines|-1];
      LinesOfText(p, color, before);
      var q := PageAll(p, color, Text(before));
      OneLine(q, color, line);
      PageConcat(p, color, Text(before), line + ['\n']);
      LastLine(p, q, PageAll(q, color, line + ['\n']), color, p.y, lines);
    }
  }

  lemma OneLine(p: Page, color: nat, line: seq<char>)
    requires PageOk(p) && p.x == 0 && PrintableLine(line)
    ensures var q := PageAll(p, color, line + ['\n']);
      q.x == 0 && q.y == p.y + 1 && HasText(p, q, color, p.y * 80, line)
  {
    TextCells(p, color, line);
    PageConcat(p, color, line, ['\n']);
    var r := PageAll(p, color, line);
    PageOne(r, color, '\n');
    NewlineCells(r, color);
    NothingAdded(p, r, PageChar(r, color, '\n'), color, p.y * 80, line);
  }

  lemma NothingAdded(p: Page, q: Page, r: Page, color: nat, from: nat, s: seq<char>)
    requires HasText(p, q, color, from, s) && HasText(q, r, color, 0, [])
    ensures HasText(p, r, color, from, s)
  {
    forall at: nat ensures CellAt(r, color, at) == WithText(p, color, from, s, at) {
      assert CellAt(r, color, at) == WithText(q, color, 0, [], at);
      assert CellAt(q, color, at) == WithText(p, color, from, s, at);
    }
  }

  lemma LastLine(p: Page, q: Page, r: Page, color: nat, y: nat, lines: seq<seq<char>>)
    requires lines != [] && |lines[|lines|-1]| < 80 && HasLines(p, q, color, y, lines[..|lines|-1])
    requires HasText(q, r, color, (y + |lines| - 1) * 80, lines[|lines|-1])
    ensures HasLines(p, r, color, y, lines)
  {
    forall at: nat ensures CellAt(r, color, at) == WithLines(p, color, y, lines, at) {
      assert at == at / 80 * 80 + at % 80;
      assert CellAt(r, color, at) == WithText(q, color, (y + |lines| - 1) * 80, lines[|lines|-1], at);
      assert CellAt(q, color, at) == WithLines(p, color, y, lines[..|lines|-1], at);
    }
  }

  /** After a carriage return, text overwrites the line from its first column. */
  lemma ReturnOverwrites(p: Page, color: nat, s: seq<char>)
    requires PageOk(p) && forall i :: 0 <= i < |s| ==> Printable(s[i])
    ensures var q := PageAll(p, color, ['\r'] + s); Place(q) == p.y * 80 + |s| && HasText(p, q, color, p.y * 80, s)
  {
    var q := PageChar(p, color, '\r');
    PageConcat(p, color, ['\r'], s);
    PageOne(p, color, '\r');
    TextCells(q, color, s);
    forall at: nat ensures CellAt(PageAll(q, color, s), color, at) == WithText(p, color, p.y * 80, s, at) {
      assert CellAt(PageAll(q, color, s), color, at) == WithText(q, color, p.y * 80, s, at);
    }
  }

  lemma {:induction false} SpacesAreText(p: Page, color: nat, n: nat)
    requires PageOk(p)
    ensures PageSpaces(p, color, n) == PageAll(p, color, seq(n, _ => ' '))
  {
    if n > 0 {
      SpacesAreText(p, color, n - 1);
      PageAllNext(p, color, seq(n - 1, _ => ' '), ' ');
      assert seq(n, _ => ' ') == seq(n - 1, _ => ' ') + [' '];
    }
  }

  /** A tab writes blanks up to the next cell that is a multiple of 8, and nothing
      else. */
  lemma TabBlanks(p: Page, color: nat)
    requires PageOk(p)
    ensures var q := PageChar(p, color, '\t'); var n := Place(q) - Place(p);
      && 0 < n <= 8 && Place(q) % 8 == 0 && HasText(p, q, color, Place(p), seq(n, _ => ' '))
  {
    var n := TAB - p.x % TAB;
    SpacesAreText(p, color, n);
    TextCells(p, color, seq(n, _ => ' '));
    StopPlace(p.x, p.y, n);
  }

  lemma StopPlace(x: nat, y: nat, n: nat)
    requires n == 8 - x % 8
    ensures (y * 80 + x + n) % 8 == 0
  {
    assert y * 80 + x + n == 8 * (10 * y + x / 8 + 1);
  }

  /** A backspace goes to the cell before, across the start of a line but not past the
      first visible one, and blanks it. */
  lemma BackspaceBlanks(p: Page, color: nat)
    requires PageOk(p)
    ensures var q := PageChar(p, color, BS);
      if Place(p) == Top(p) * 80 then q == p
      else Place(q) == Place(p) - 1 && HasText(p, q, color, Place(p) - 1, [' '])
  {
  }

  /** Each character from the space to '~' is printed. */
  lemma PrintedOne(p: Page, color: nat, ch: char)
    requires PageOk(p) && ' ' <= ch <= '~'
    ensures Printable(ch)
    ensures var q := PageChar(p, color, ch); HasText(p, q, color, Place(p), [ch]) && Place(q) == Place(p) + 1
  {
    PrintableCell(p, color, ch);
  }

  /** vga_put_char_at changes the one cell at its place, if that is on the screen. */
  lemma PlacedCell(v: Screen, x: nat, y: nat, ch: char, color: nat, i: nat)
    requires Ok(v) && i < 2000
    ensures PutAt(v, x, y, ch, color) == v.(buf := PutAt(v, x, y, ch, color).buf)
    ensures |PutAt(v, x, y, ch, color).buf| == 2000
    ensures PutAt(v, x, y, ch, color).buf[i] == if i / 80 == y && i % 80 == x then Cell(ch, color) else v.buf[i]
  {
  }

  /** Every other character is ignored. */
  lemma OthersIgnored(p: Page, color: nat, ch: char)
    requires PageOk(p) && ch != '\n' && ch != '\r' && ch != '\t' && ch != BS && !(' ' <= ch <= '~')
    ensures PageChar(p, color, ch) == p
  {
  }

  /** A colour byte has the foreground in its low and the background in its high four
      bits. */
  lemma ColorParts(fg: Color, bg: Color)
    ensures MakeColor(fg, bg) % 16 == fg && MakeColor(fg, bg) / 16 == bg
  {
  }

  /** A cleared screen shows an empty page, in the current colour, with the cursor at
      its start. */
  lemma ClearShows(v: Screen)
    requires Ok(v) && v.autoScroll
    ensures Shows(Clear(v), Page(seq(2000, _ => Cell(' ', v.color)), 0, 0)) && Clear(v).color == v.color
  {
    assert Blanks(CELLS, v.color) == seq(2000, _ => Cell(' ', v.color));
  }

  /** Setting the cursor to a place on the screen puts it there, and elsewhere takes it
      to the nearest place. */
  lemma CursorClamped(v: Screen, x: nat, y: nat)
    ensures var w := SetCursor(v, x, y);
      && w.buf == v.buf && w.x < 80 && w.y < 25
      && (x < 80 ==> w.x == x) && (80 <= x ==> w.x == 79) && (y < 25 ==> w.y == y) && (25 <= y ==> w.y == 24)
  {
  }

  /** Without automatic scrolling nothing moves: a newline on the last line only takes
      the cursor to its start. */
  lemma NoScroll(v: Screen)
    requires Ok(v) && !v.autoScroll
    ensures NewLine(v).buf == v.buf && NewLine(v).x == 0 && NewLine(v).y == if v.y == 24 then 24 else v.y + 1
  {
  }

  // ---- Erasing a key ------------------------------------------------------

  /** What the screen shows of a key: a tab as blanks up to the next stop. */
  function ShownKey(v: Screen, ch: char): (r: Screen)
    requires Ok(v)
    ensures Ok(r)
  {
    if ch == '\t' then PutSpaces(v, TAB - v.x % TAB) else PutChar(v, ch)
  }

  /** Backspace, blank, backspace. */
  function Erase(v: Screen): (r: Screen)
    requires Ok(v)
    ensures Ok(r)
  {
    PutChar(PutChar(PutChar(v, BS), ' '), BS)
  }

  function Blanked(v: Screen): Screen
    requires Ok(v)
  {
    v.(buf := v.buf[v.y * WIDTH + v.x := Cell(' ', v.color)])
  }

  /** Erasing takes the cursor back one cell, across a line start but not past the
      top left. */
  lemma EraseMoves(v: Screen)
    requires Ok(v)
    ensures Erase(v).x == if v.x > 0 then v.x - 1 else if v.y > 0 then WIDTH - 1 else 0
    ensures Erase(v).y == if v.x > 0 || v.y == 0 then v.y else v.y - 1
  {
  }

  /** A printable key with a cell after it on the screen is erased without trace. */
  lemma EraseWithin(v: Screen, ch: char)
    requires Ok(v) && Printable(ch) && !(v.x == WIDTH - 1 && v.y == HEIGHT - 1)
    ensures Erase(PutPrintable(v, ch)) == Blanked(v)
  {
    var at, blank := v.y * WIDTH + v.x, Cell(' ', v.color);
    var b := v.buf[at := Cell(ch, v.color)];
    assert b[at := blank] == v.buf[at := blank];
    assert v.buf[at := blank][at := blank] == v.buf[at := blank];
    EraseMoves(PutPrintable(v, ch));
  }

  lemma EraseControl(v: Screen)
    requires Ok(v)
    ensures Erase(v) == Blanked(v) <==> v.x == 0 && v.y == 0
  {
    EraseMoves(v);
    var b := v.buf[0 := Cell(' ', v.color)];
    assert b[0 := Cell(' ', v.color)] == b;
  }

  /** Erasing a tab leaves the cursor on the last of its blanks. */
  lemma EraseTab(v: Screen)
    requires Ok(v)
    ensures v.x % TAB < TAB - 1 ==> Erase(ShownKey(v, '\t')).x == NextTab(v.x) - 1 > v.x
  {
    var n := TAB - v.x % TAB;
    assert v.x + n == NextTab(v.x);
    SpacesAdvance(v, n - 1);
    EraseMoves(PutSpaces(v, n));
  }

  /** In the last cell of the screen a key scrolls, and erasing it leaves the cursor
      a line higher. */
  lemma EraseCorner(v: Screen, ch: char)
    requires Ok(v) && Printable(ch) && v.x == WIDTH - 1 && v.y == HEIGHT - 1
    ensures Erase(PutPrintable(v, ch)).x == v.x && Erase(PutPrintable(v, ch)).y == v.y - 1
  {
    EraseMoves(PutPrintable(v, ch));
  }

  /** The key takes one cell, and not the last one of the screen; or it shows
      nothing and there is nothing before it. */
  predicate Erasable(v: Screen, ch: char)
  {
    if Printable(ch) || (ch == '\t' && v.x % TAB == TAB - 1) then !(v.x == WIDTH - 1 && v.y == HEIGHT - 1)
    else ch != '\t' && v.x == 0 && v.y == 0
  }

  /** Erasing a key leaves a blank cell under the cursor, the cursor where it was,
      and no other trace, exactly for those. */
  lemma EraseExact(v: Screen, ch: char)
    requires Ok(v) && ch != '\n' && ch != '\r' && ch != BS
    ensures Erase(ShownKey(v, ch)) == Blanked(v) <==> Erasable(v, ch)
  {
    if ch == '\t' {
      if v.x % TAB == TAB - 1 {
        assert PutSpaces(v, 1) == PutPrintable(v, ' ') by { assert PutSpaces(v, 0) == v; }
        ErasePrintable(v, ' ');
      } else {
        EraseTab(v);
      }
    } else if Printable(ch) {
      ErasePrintable(v, ch);
    } else {
      EraseControl(v);
    }
  }

  lemma ErasePrintable(v: Screen, ch: char)
    requires Ok(v) && Printable(ch)
    ensures Erase(PutPrintable(v, ch)) == Blanked(v) <==> !(v.x == WIDTH - 1 && v.y == HEIGHT - 1)
  {
    if v.x == WIDTH - 1 && v.y == HEIGHT - 1 { EraseCorner(v, ch); } else { EraseWithin(v, ch); }
  }
}
