/** The VGA text driver: the state in vga_state, updated in place. Port writes
    that only mirror this state to the hardware cursor are not modelled. */
module VgaDriver {
  import opened Common
  import opened VgaScreen
  import C = Copying

  ghost predicate RegionFits(x0: nat, y0: nat, width: nat, height: nat)
  {
    C.Within(CELLS, y0 * WIDTH + x0, C.Rect(width, height))
  }

  lemma RegionInside(x0: nat, y0: nat, width: nat, height: nat)
    requires x0 + width <= WIDTH && y0 + height <= HEIGHT
    ensures RegionFits(x0, y0, width, height)
  {
    C.RectCells(width, height);
    var offs := C.Rect(width, height);
    forall i | 0 <= i < |offs| ensures y0 * WIDTH + x0 + offs[i] < CELLS {
      assert offs[i] == WIDTH * (offs[i] / WIDTH) + offs[i] % WIDTH;
    }
  }

  /** buf is b after the first `done` cells have been copied. */
  predicate LinesCopied(b: seq<Cell>, buf: seq<Cell>, s: nat, d: nat, offs: seq<nat>, done: nat)
  {
    && |b| == CELLS && done <= |offs| && C.Within(CELLS, s, offs) && C.Within(CELLS, d, offs)
    && buf == C.Copied(b, s, d, offs, done)
  }

  /** The offsets from index `done` on are those of a rectangle's line r. */
  predicate LineAt(offs: seq<nat>, done: nat, width: nat, r: nat)
  {
    done + width <= |offs| && forall i :: done <= i < done + width ==> offs[i] == r * WIDTH + (i - done)
  }

  class Vga {
    const buffer: array<Cell>
    var x: nat
    var y: nat
    var fg: Color
    var bg: Color
    var color: nat
    var autoScroll: bool

    ghost function Value(): Screen
      reads this, buffer
    {
      Screen(buffer[..], x, y, fg, bg, color, autoScroll)
    }

    ghost predicate Valid()
      reads this, buffer
    {
      Ok(Value())
    }

    // vga_init
    constructor ()
      ensures Valid() && fresh(buffer)
      ensures Value() == Screen(Blanks(CELLS, MakeColor(7, 0)), 0, 0, 7, 0, MakeColor(7, 0), true)
    {
      buffer := new Cell[CELLS](i => Cell(' ', MakeColor(7, 0)));
      x, y, fg, bg, color, autoScroll := 0, 0, 7, 0, MakeColor(7, 0), true;
    }

    method SetColors(foreground: Color, background: Color)
      modifies `fg, `bg, `color
      ensures Value() == SetColor(old(Value()), foreground, background)
    {
      fg, bg := foreground, background;
      color := MakeColor(foreground, background);
    }

    method MoveCursor(cx: nat, cy: nat)
      modifies `x, `y
      ensures Value() == SetCursor(old(Value()), cx, cy)
    {
      x := if cx >= WIDTH then WIDTH - 1 else cx;
      y := if cy >= HEIGHT then HEIGHT - 1 else cy;
    }

    method ClearScreen()
      requires Valid()
      modifies this, buffer
      ensures Valid() && Value() == Clear(old(Value()))
    {
      for i := 0 to CELLS
        invariant buffer[..i] == Blanks(CELLS, color)[..i]
        invariant x == old(x) && y == old(y) && fg == old(fg) && bg == old(bg) && color == old(color)
        invariant autoScroll == old(autoScroll)
      {
        buffer[i] := Cell(' ', color);
      }
      MoveCursor(0, 0);
    }

    method PutCharAt(cx: nat, cy: nat, ch: char, c: nat)
      requires Valid()
      modifies buffer
      ensures Valid() && Value() == PutAt(old(Value()), cx, cy, ch, c)
    {
      if cx >= WIDTH || cy >= HEIGHT {
        return;
      }
      ghost var b := buffer[..];
      buffer[cy * WIDTH + cx] := Cell(ch, c);
      assert buffer[..] == b[cy * WIDTH + cx := Cell(ch, c)];
    }

    /** The two loops of vga_scroll_line and vga_scroll_lines: shift up by whole
        lines, then blank what is left. */
    method ShiftUp(lines: nat)
      requires buffer.Length == CELLS && lines <= HEIGHT
      modifies buffer
      ensures buffer[..] == old(buffer[..])[lines * WIDTH..] + Blanks(lines * WIDTH, color)
    {
      ghost var b := buffer[..];
      var keep := (HEIGHT - lines) * WIDTH;
      for i := 0 to keep
        invariant buffer[..i] == b[lines * WIDTH..lines * WIDTH + i]
        invariant buffer[i..] == b[i..]
      {
        assert buffer[i + lines * WIDTH] == buffer[i..][lines * WIDTH] == b[i + lines * WIDTH];
        buffer[i] := buffer[i + lines * WIDTH];
        assert buffer[i+1..] == b[i+1..];
      }
      for i := 0 to lines * WIDTH
        invariant buffer[..keep] == b[lines * WIDTH..]
        invariant forall k :: keep <= k < keep + i ==> buffer[k] == Cell(' ', color)
      {
        buffer[keep + i] := Cell(' ', color);
      }
      assert buffer[..] == buffer[..keep] + buffer[keep..];
    }

    method ScrollLine()
      requires Valid()
      modifies buffer
      ensures Valid() && Value() == VgaScreen.ScrollLine(old(Value()))
    {
      ShiftUp(1);
    }

    method ScrollLines(lines: nat)
      requires Valid()
      modifies this, buffer
      ensures Valid() && Value() == VgaScreen.ScrollLines(old(Value()), lines)
    {
      if lines == 0 {
        return;
      }
      if lines >= HEIGHT {
        ClearScreen();
        return;
      }
      ShiftUp(lines);
    }

    method NewLine()
      requires buffer.Length == CELLS && y < HEIGHT
      modifies `x, `y, buffer
      ensures Valid() && Value() == VgaScreen.NewLine(old(Value()))
    {
      x := 0;
      y := y + 1;
      if y >= HEIGHT {
        if autoScroll {
          ShiftUp(1);
          y := HEIGHT - 1;
        } else {
          y := HEIGHT - 1;
        }
      }
    }

    method Backspace()
      requires Valid()
      modifies `x, `y, buffer
      ensures Valid() && Value() == VgaScreen.Backspace(old(Value()))
    {
      if x > 0 {
        x := x - 1;
        PutCharAt(x, y, ' ', color);
      } else if y > 0 {
        y := y - 1;
        x := WIDTH - 1;
        PutCharAt(x, y, ' ', color);
      }
    }

    method PutChar(ch: char)
      requires Valid() && CanPut(Value(), ch)
      modifies `x, `y, buffer
      ensures Valid() && Value() == VgaScreen.PutChar(old(Value()), ch)
      decreases if ch == '\t' then 2 else 0
    {
      if ch == '\n' {
        NewLine();
      } else if ch == '\t' {
        Tab();
      } else if ch == BS {
        Backspace();
      } else if ch == '\r' {
        MoveCursor(0, y);
      } else if ' ' <= ch <= '~' {
        PutCharAt(x, y, ch, color);
        x := x + 1;
        if x >= WIDTH {
          NewLine();
        }
      }
    }

    method Tab()
      requires Valid() && x < WIDTH - TAB
      modifies `x, `y, buffer
      ensures Valid() && Value() == PutSpaces(old(Value()), TAB - old(x) % TAB)
      decreases 1
    {
      ghost var v := Value();
      var next := (x / TAB + 1) * TAB;
      ghost var n := 0;
      while x < next && x < WIDTH
        invariant Valid() && 0 <= n <= TAB - v.x % TAB
        invariant Value() == PutSpaces(v, n) && x == v.x + n
        decreases TAB - n
      {
        SpacesAdvance(v, n + 1);
        assert PutSpaces(v, n + 1) == PutPrintable(PutSpaces(v, n), ' ');
        PutChar(' ');
        n := n + 1;
      }
    }

    method CopyRegion(sx: nat, sy: nat, dx: nat, dy: nat, width: nat, height: nat)
      requires Valid()
      modifies buffer
      ensures Valid()
      ensures var fits := sx + width <= WIDTH && sy + height <= HEIGHT && dx + width <= WIDTH && dy + height <= HEIGHT;
        if fits then
          RegionFits(sx, sy, width, height) && RegionFits(dx, dy, width, height) &&
          buffer[..] == C.Copied(old(buffer[..]), sy * WIDTH + sx, dy * WIDTH + dx,
                                 C.Rect(width, height), |C.Rect(width, height)|)
        else buffer[..] == old(buffer[..])
    {
      if sx + width > WIDTH || sy + height > HEIGHT || dx + width > WIDTH || dy + height > HEIGHT {
        return;
      }
      CopyLines(sx, sy, dx, dy, width, height);
    }

    method CopyLines(sx: nat, sy: nat, dx: nat, dy: nat, width: nat, height: nat)
      requires Valid()
      requires sx + width <= WIDTH && sy + height <= HEIGHT && dx + width <= WIDTH && dy + height <= HEIGHT
      modifies buffer
      ensures Valid() && RegionFits(sx, sy, width, height) && RegionFits(dx, dy, width, height)
      ensures buffer[..] == C.Copied(old(buffer[..]), sy * WIDTH + sx, dy * WIDTH + dx,
                                     C.Rect(width, height), |C.Rect(width, height)|)
    {
      RegionInside(sx, sy, width, height);
      RegionInside(dx, dy, width, height);
      ghost var b := buffer[..];
      for r := 0 to height
        invariant Valid() && LinesCopied(b, buffer[..], sy * WIDTH + sx, dy * WIDTH + dx, C.Rect(width, height), |C.Rect(width, r)|)
      {
        LineOffsets(width, height, r);
        CopyLine(sx, sy, dx, dy, width, r, b, sy * WIDTH + sx, dy * WIDTH + dx, C.Rect(width, height), |C.Rect(width, r)|);
      }
    }

    /** The inner loop, for line r: the offsets from index `done` on. */
    method CopyLine(sx: nat, sy: nat, dx: nat, dy: nat, width: nat, r: nat,
                    ghost b: seq<Cell>, ghost s: nat, ghost d: nat, ghost offs: seq<nat>, ghost done: nat)
      requires Valid() && LineAt(offs, done, width, r)
      requires s == sy * WIDTH + sx && d == dy * WIDTH + dx
      requires LinesCopied(b, buffer[..], s, d, offs, done)
      modifies buffer
      ensures Valid() && LinesCopied(b, buffer[..], s, d, offs, done + width)
    {
      for c := 0 to width
        invariant Valid() && LinesCopied(b, buffer[..], s, d, offs, done + c)
      {
        var srcIndex := (sy + r) * WIDTH + (sx + c);
        var dstIndex := (dy + r) * WIDTH + (dx + c);
        assert offs[done + c] == r * WIDTH + c;
        CopyCell(dstIndex, srcIndex);
      }
    }

    lemma LineOffsets(width: nat, height: nat, r: nat)
      requires r < height
      ensures |C.Rect(width, r + 1)| == |C.Rect(width, r)| + width
      ensures LineAt(C.Rect(width, height), |C.Rect(width, r)|, width, r)
    {
      RectLength(width, height, r + 1);
      var done := |C.Rect(width, r)|;
      forall i | done <= i < done + width ensures C.Rect(width, height)[i] == r * WIDTH + (i - done) {
        C.RectAt(width, height, i - done, r);
      }
    }

    method CopyCell(dst: nat, src: nat)
      requires Valid() && dst < CELLS && src < CELLS
      modifies buffer
      ensures Valid() && buffer[..] == old(buffer[..])[dst := old(buffer[..])[src]]
    {
      buffer[dst] := buffer[src];
    }

    lemma {:induction false} RectLength(width: nat, height: nat, r: nat)
      requires r <= height
      ensures |C.Rect(width, r)| <= |C.Rect(width, height)|
      decreases height
    {
      if r < height { RectLength(width, height - 1, r); }
    }
  }

  /** A rectangle copy puts the source's old contents at the destination and leaves
      every other cell alone, for every screen, if and only if the destination is
      not later in the buffer than the source or the two do not overlap. */
  lemma CopyRegionExact(sx: nat, sy: nat, dx: nat, dy: nat, width: nat, height: nat)
    requires sx + width <= WIDTH && sy + height <= HEIGHT && dx + width <= WIDTH && dy + height <= HEIGHT
    ensures RegionFits(sx, sy, width, height) && RegionFits(dx, dy, width, height)
    ensures C.AlwaysFaithful<Cell>(CELLS, sy * WIDTH + sx, dy * WIDTH + dx, C.Rect(width, height)) <==>
            !C.BadOverlap(sx, sy, dx, dy, width, height)
  {
    RegionInside(sx, sy, width, height);
    RegionInside(dx, dy, width, height);
    assert C.Increasing(C.Rect(width, height)) by { C.RectCells(width, height); }
    assert C.BadOverlap(sx, sy, dx, dy, width, height) <==>
           C.CanClobber(sy * WIDTH + sx, dy * WIDTH + dx, C.Rect(width, height)) by {
      C.BadOverlapExact(sx, sy, dx, dy, width, height);
    }
    C.CopyExact(CELLS, sy * WIDTH + sx, dy * WIDTH + dx, C.Rect(width, height), Cell('a', 0), Cell('b', 0));
  }
}
