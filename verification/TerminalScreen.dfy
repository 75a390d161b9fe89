/** One terminal_write on the tty that is on the screen: first the requests of the
    sequences it completes, then all its bytes, escape sequences included, as output.
    tty_set_cursor, whose body the repository lacks, is taken to put the cursor of the
    tty and of the screen where it is told. */
module TerminalScreen {
  import opened Common
  import opened TerminalSpec
  import V = VgaScreen
  import T = TtySpec

  function Ask(o: T.Out, c: Call): T.Out
  {
    match c
    case SetCursor(x, y) => o.(cx := x, cy := y, screen := V.SetCursor(o.screen, x, y))
    case SetColor(fg, bg) => o.(fg := fg, bg := bg)
    case Clear => if o.current then o.(cx := 0, cy := 0, screen := V.Clear(o.screen)) else o
  }

  /** The requests from number n on. */
  function AskAll(o: T.Out, calls: seq<Call>, n: nat): T.Out
    requires n <= |calls|
    decreases |calls|
  {
    if |calls| == n then o else Ask(AskAll(o, calls[..|calls|-1], n), calls[|calls|-1])
  }

  lemma AskNext(o: T.Out, calls: seq<Call>, n: nat, c: Call)
    requires n <= |calls|
    ensures AskAll(o, calls + [c], n) == Ask(AskAll(o, calls, n), c)
  {
    assert (calls + [c])[..|calls|] == calls;
  }

  /** No sequence puts the cursor off the screen. */
  predicate OnScreen(t: Term, tokens: seq<seq<char>>)
    requires AllSequences(tokens)
  {
    t.w == WIDTH && t.h == HEIGHT && InRange(t) && forall k :: 0 <= k < |tokens| ==> !OffScreen(t, tokens[k][2..])
  }

  /** The tty on the screen, with its cursor at this place. */
  predicate Showing(o: T.Out, at: Place) { T.InStep(o) && o.current && Place(o.cx, o.cy) == at }

  /** A sequence makes at most one request, and a request for a position names the
      terminal's own. */
  lemma OneRequest(t: Term, body: seq<char>)
    requires body != []
    ensures var u := Execute(t, body);
      u.calls == t.calls ||
      (exists c :: u.calls == t.calls + [c] && (c.SetCursor? ==> c.x == u.x && c.y == u.y))
  {
    var u := Execute(t, body);
    if u.calls != t.calls { assert u.calls == t.calls + [u.calls[|t.calls|]]; }
  }

  /** After the requests the tty's cursor is where they put it. */
  lemma {:induction false} TtyFollows(t: Term, o: T.Out, start: Place, tokens: seq<seq<char>>)
    requires AllSequences(tokens) && OnScreen(t, tokens) && Showing(o, CursorAsked(t.calls, start))
    ensures var u := Perform(t, tokens);
      && |t.calls| <= |u.calls|
      && Showing(AskAll(o, u.calls, |t.calls|), CursorAsked(u.calls, start))
    decreases |tokens|
  {
    if tokens != [] {
      var before, body := tokens[..|tokens|-1], tokens[|tokens|-1][2..];
      TtyFollows(t, o, start, before);
      CursorStays(t, tokens);
      var mid := Perform(t, before);
      OneRequest(mid, body);
      var u := Execute(mid, body);
      if u.calls != mid.calls {
        var c :| u.calls == mid.calls + [c] && (c.SetCursor? ==> c.x == u.x && c.y == u.y);
        AskNext(o, mid.calls, |t.calls|, c);
        AskedStep(mid.calls, c, start);
      }
    }
  }

  // ---- What printing does to the cursor -----------------------------------

  /** Bytes that are printed, or ESC, which vga_put_char ignores. */
  predicate PlainBytes(data: seq<char>)
  {
    forall i :: 0 <= i < |data| ==> V.Printable(data[i]) || data[i] == ESC
  }

  /** How many of them are printed. */
  function Visible(data: seq<char>): nat
  {
    if data == [] then 0 else (if V.Printable(data[0]) then 1 else 0) + Visible(data[1..])
  }

  /** n cells on from a place, the screen scrolling at its end. */
  function Advanced(at: Place, n: nat): Place
  {
    Place((at.x + n) % WIDTH, Min(HEIGHT - 1, at.y + (at.x + n) / WIDTH))
  }

  lemma AdvanceNext(at: Place, step: nat, n: nat)
    requires at.x < WIDTH && at.y < HEIGHT && step <= 1
    ensures Advanced(Advanced(at, step), n) == Advanced(at, step + n)
  {
    if at.x + step == WIDTH {
      assert (at.x + step + n) / WIDTH == n / WIDTH + 1 && (at.x + step + n) % WIDTH == n % WIDTH;
    }
  }

  lemma ByteMoves(o: T.Out, ch: char)
    requires T.InStep(o) && o.current && (V.Printable(ch) || ch == ESC)
    ensures T.CanEmit(o, ch) && T.EmitOne(o, ch).current
    ensures var r := T.EmitOne(o, ch);
      Place(r.cx, r.cy) == Advanced(Place(o.cx, o.cy), if V.Printable(ch) then 1 else 0)
  {
  }

  /** Output of such bytes takes the cursor on by as many cells as are printed. */
  lemma {:induction false} PrintingAdvances(o: T.Out, data: seq<char>)
    requires T.InStep(o) && o.current && PlainBytes(data)
    ensures T.CanWrite(o, data)
    ensures var r := T.Write(o, data); Place(r.cx, r.cy) == Advanced(Place(o.cx, o.cy), Visible(data))
    decreases |data|
  {
    if data == [] {
      ReturnExact(Place(o.cx, o.cy), 0);
    } else {
      ByteMoves(o, data[0]);
      PrintingAdvances(T.EmitOne(o, data[0]), data[1..]);
      AdvanceNext(Place(o.cx, o.cy), if V.Printable(data[0]) then 1 else 0, Visible(data[1..]));
    }
  }

  /** A place is reached again exactly after whole lines on the last line. */
  lemma ReturnExact(at: Place, n: nat)
    requires at.x < WIDTH && at.y < HEIGHT
    ensures Advanced(at, n) == at <==> n == 0 || (n % WIDTH == 0 && at.y == HEIGHT - 1)
  {
    var q, r := n / WIDTH, n % WIDTH;
    if at.x + r < WIDTH {
      assert (at.x + n) % WIDTH == at.x + r && (at.x + n) / WIDTH == q;
    } else {
      assert (at.x + n) % WIDTH == at.x + r - WIDTH;
    }
  }

  // ---- The two cursors after a write --------------------------------------

  /** The tty after the requests and the output of one write. */
  function Shown(t: Term, o: T.Out, start: Place, tokens: seq<seq<char>>, data: seq<char>): T.Out
    requires AllSequences(tokens) && OnScreen(t, tokens) && Showing(o, CursorAsked(t.calls, start)) && PlainBytes(data)
  {
    TtyFollows(t, o, start, tokens);
    var asked := AskAll(o, Perform(t, tokens).calls, |t.calls|);
    PrintingAdvances(asked, data);
    T.Write(asked, data)
  }

  /** The terminal's own cursor does not follow what is printed. So after a write that
      prints n cells and whose sequences are `tokens`, from a state in which the two
      agree: when the requests leave them in agreement, they agree afterwards exactly if
      nothing was printed, or whole lines on the last line; when a clear parted them,
      exactly if the n cells lead from the top left to the terminal's cursor. */
  lemma WriteAgreementExact(t: Term, o: T.Out, start: Place, tokens: seq<seq<char>>, data: seq<char>)
    requires AllSequences(tokens) && OnScreen(t, tokens) && PlainBytes(data)
    requires InAgreement(t, start) && Showing(o, Place(t.x, t.y))
    ensures var u, r, n := Perform(t, tokens), Shown(t, o, start, tokens, data), Visible(data);
      Place(r.cx, r.cy) == Place(u.x, u.y) <==>
      if !EndsCleared(tokens) || AtHome(Perform(t, tokens[..LastClear(tokens)]))
      then n == 0 || (n % WIDTH == 0 && u.y == HEIGHT - 1)
      else n % WIDTH == u.x && Min(HEIGHT - 1, n / WIDTH) == u.y
  {
    var u := Perform(t, tokens);
    TtyFollows(t, o, start, tokens);
    PrintingAdvances(AskAll(o, u.calls, |t.calls|), data);
    AgreementExact(t, start, tokens);
    CursorStays(t, tokens);
    ReturnExact(Place(u.x, u.y), Visible(data));
    if EndsCleared(tokens) { ClearedAsks(t, start, tokens); }
  }

  /** ESC [ 5 C and ESC [ 2 J in one write, from the top left: the terminal's cursor
      is in column 5, the tty's in column 6, behind the six printed cells. */
  lemma RightAndClear(t: Term, o: T.Out, start: Place)
    requires OnScreen(t, [RIGHT_5, CLEAR_ALL]) && AtHome(t) && InAgreement(t, start) && Showing(o, Place(0, 0))
    ensures PlainBytes(RIGHT_5 + CLEAR_ALL)
    ensures var u, r := Perform(t, [RIGHT_5, CLEAR_ALL]), Shown(t, o, start, [RIGHT_5, CLEAR_ALL], RIGHT_5 + CLEAR_ALL);
      Place(u.x, u.y) == Place(5, 0) && Place(r.cx, r.cy) == Place(6, 0)
  {
    var tokens, data := [RIGHT_5, CLEAR_ALL], RIGHT_5 + CLEAR_ALL;
    ClearDisagrees(t, start);
    TtyFollows(t, o, start, tokens);
    SixVisible(data);
    PrintingAdvances(AskAll(o, Perform(t, tokens).calls, |t.calls|), data);
  }

  lemma SixVisible(data: seq<char>)
    requires data == RIGHT_5 + CLEAR_ALL
    ensures PlainBytes(data) && Visible(data) == 6
  {
    assert Visible(data[8..]) == 0 && Visible(data[7..]) == 1 by { assert data[7..][1..] == data[8..]; }
    assert Visible(data[6..]) == 2 by { assert data[6..][1..] == data[7..]; }
    assert Visible(data[5..]) == 3 by { assert data[5..][1..] == data[6..]; }
    assert Visible(data[4..]) == 3 by { assert data[4..][1..] == data[5..]; }
    assert Visible(data[3..]) == 4 by { assert data[3..][1..] == data[4..]; }
    assert Visible(data[2..]) == 5 by { assert data[2..][1..] == data[3..]; }
    assert Visible(data[1..]) == 6 by { assert data[1..][1..] == data[2..]; }
  }

  /** After a last clear the tty has been told to be at home. */
  lemma {:induction false} ClearedAsks(t: Term, start: Place, tokens: seq<seq<char>>)
    requires AllSequences(tokens) && EndsCleared(tokens)
    ensures CursorAsked(Perform(t, tokens).calls, start) == Place(0, 0)
    decreases |tokens|
  {
    var before, body := tokens[..|tokens|-1], tokens[|tokens|-1][2..];
    LastCleared(tokens);
    AsksNext(Perform(t, before), body, start);
    if !Clears(body) { ClearedAsks(t, start, before); }
  }

  lemma AsksNext(t: Term, body: seq<char>, start: Place)
    requires body != [] && !Moves(ControlOf(body[|body|-1]))
    ensures CursorAsked(Execute(t, body).calls, start) == if Clears(body) then Place(0, 0) else CursorAsked(t.calls, start)
  {
    var calls := Execute(t, body).calls;
    if calls != t.calls { AskedStep(t.calls, calls[|t.calls|], start); }
  }

  // ---- Colours ------------------------------------------------------------

  /** After the requests of any sequences the tty has the terminal's colours. */
  lemma {:induction false} ColoursFollow(t: Term, o: T.Out, tokens: seq<seq<char>>)
    requires AllSequences(tokens) && o.fg == t.fg && o.bg == t.bg
    ensures var u := Perform(t, tokens);
      |t.calls| <= |u.calls| &&
      var r := AskAll(o, u.calls, |t.calls|); r.fg == u.fg && r.bg == u.bg && r.sent == o.sent && r.current == o.current
    decreases |tokens|
  {
    if tokens != [] {
      var before, body := tokens[..|tokens|-1], tokens[|tokens|-1][2..];
      ColoursFollow(t, o, before);
      ColourAsked(AskAll(o, Perform(t, before).calls, |t.calls|), Perform(t, before), body);
      var mid, u := Perform(t, before), Perform(t, tokens);
      if u.calls != mid.calls { AskNext(o, mid.calls, |t.calls|, u.calls[|mid.calls|]); }
    }
  }

  lemma ColourAsked(o: T.Out, t: Term, body: seq<char>)
    requires body != [] && o.fg == t.fg && o.bg == t.bg
    ensures var u := Execute(t, body);
      if u.calls == t.calls then u.fg == t.fg && u.bg == t.bg
      else
        && |u.calls| == |t.calls| + 1 && u.calls == t.calls + [u.calls[|t.calls|]]
        && var r := Ask(o, u.calls[|t.calls|]); r.fg == u.fg && r.bg == u.bg && r.sent == o.sent && r.current == o.current
  {
    ObeyAsked(o, t, ControlOf(body[|body|-1]), Scanned(body));
  }

  lemma ObeyAsked(o: T.Out, t: Term, c: Control, p: Params)
    requires o.fg == t.fg && o.bg == t.bg
    ensures var u := Obey(t, c, p);
      if u.calls == t.calls then u.fg == t.fg && u.bg == t.bg
      else
        && |u.calls| == |t.calls| + 1 && u.calls == t.calls + [u.calls[|t.calls|]]
        && var r := Ask(o, u.calls[|t.calls|]); r.fg == u.fg && r.bg == u.bg && r.sent == o.sent && r.current == o.current
  {
    var u := Obey(t, c, p);
    if u.calls != t.calls { assert u.calls == t.calls + [u.calls[|t.calls|]]; }
  }

  /** The bytes that are printed. */
  function Printed(data: seq<char>): seq<char>
  {
    if data == [] then [] else (if V.Printable(data[0]) then [data[0]] else []) + Printed(data[1..])
  }

  lemma {:induction false} PlainSent(o: T.Out, data: seq<char>)
    requires T.InStep(o) && o.current && PlainBytes(data)
    ensures T.CanWrite(o, data) && T.Write(o, data).sent == o.sent + data
    decreases |data|
  {
    if data == [] {
      assert o.sent + data == o.sent;
    } else {
      ByteMoves(o, data[0]);
      T.EmitSent(o, data[0]);
      PlainSent(T.EmitOne(o, data[0]), data[1..]);
      assert o.sent + [data[0]] + data[1..] == o.sent + data;
    }
  }

  lemma {:induction false} PrintedCells(p: V.Page, color: nat, data: seq<char>)
    requires V.PageOk(p) && PlainBytes(data)
    ensures (forall i :: 0 <= i < |Printed(data)| ==> V.Printable(Printed(data)[i]))
    ensures V.PageAll(p, color, data) == V.PageAll(p, color, Printed(data))
    decreases |data|
  {
    if data != [] {
      PrintedCells(V.PageChar(p, color, data[0]), color, data[1..]);
      if V.Printable(data[0]) {
        assert ([data[0]] + Printed(data[1..]))[1..] == Printed(data[1..]);
      } else {
        V.OthersIgnored(p, color, data[0]);
        assert [] + Printed(data[1..]) == Printed(data[1..]);
      }
    }
  }

  /** What a write prints stands on the screen from where the requests put the cursor,
      in cells whose low four colour bits are the foreground that its sequences left and
      whose high four bits are the background. */
  lemma PickedColoursShown(t: Term, o: T.Out, start: Place, tokens: seq<seq<char>>, data: seq<char>, asked: T.Out, p: V.Page)
    requires AllSequences(tokens) && OnScreen(t, tokens) && Showing(o, CursorAsked(t.calls, start)) && PlainBytes(data)
    requires o.fg == t.fg && o.bg == t.bg && |t.calls| <= |Perform(t, tokens).calls|
    requires asked == AskAll(o, Perform(t, tokens).calls, |t.calls|) && V.Shows(asked.screen, p)
    ensures var u := Perform(t, tokens);
      exists color, q :: color % 16 == u.fg && color / 16 == u.bg
        && V.Shows(Shown(t, o, start, tokens, data).screen, q) && V.HasText(p, q, color, V.Place(p), Printed(data))
  {
    var u := Perform(t, tokens);
    ColoursFollow(t, o, tokens);
    TtyFollows(t, o, start, tokens);
    var color := V.MakeColor(asked.fg, asked.bg);
    V.ColorParts(asked.fg, asked.bg);
    PlainSent(asked, data);
    T.WriteShows(asked, data, p);
    assert (asked.sent + data)[|asked.sent|..] == data;
    PrintedCells(p, color, data);
    V.TextCells(p, color, Printed(data));
    var q := V.PageAll(p, color, data);
    assert color % 16 == u.fg && V.HasText(p, q, color, V.Place(p), Printed(data));
  }
}
