/** What a tty does with the characters it is given, as functions on values: the
    output path from tty_write to the screen, and the line editor behind
    tty_read. */
module TtySpec {
  import opened Common
  import opened VgaScreen

  datatype Mode = Cooked | Raw

  datatype Config = Config(echo: bool, crlf: bool, tabExpand: bool)

  const RING: nat := 4096            // TTY_BUFFER_SIZE
  const LINE: nat := 1024            // TTY_MAX_LINE_LENGTH

  // ---- Output -------------------------------------------------------------

  /** The output side of a READY device. current: it is the tty on the screen.
      sent: the characters passed to vga_put_char so far. */
  datatype Out = Out(mode: Mode, config: Config, current: bool, fg: Color, bg: Color, cx: nat, cy: nat,
                     screen: Screen, sent: seq<char>, written: nat)

  /** The screen is in range, and the device's cursor is the screen's: this holds
      at registration and after tty_switch, and is kept below. */
  predicate InStep(o: Out)
  {
    Ok(o.screen) && (o.current ==> o.cx == o.screen.x && o.cy == o.screen.y)
  }

  predicate SameSettings(o: Out, r: Out)
  {
    r.mode == o.mode && r.config == o.config && r.current == o.current && r.fg == o.fg && r.bg == o.bg
  }

  function ToScreen(o: Out, ch: char): (r: Out)
    requires Ok(o.screen) && (o.current ==> CanPut(o.screen, ch))
    ensures Ok(r.screen) && (InStep(o) ==> InStep(r))
    ensures SameSettings(o, r)
  {
    if !o.current then o
    else
      var v := PutChar(SetColor(o.screen, o.fg, o.bg), ch);
      o.(screen := v, cx := v.x, cy := v.y, sent := o.sent + [ch])
  }

  /** tty_putchar of a character that is neither a newline nor a tab. */
  function PutPlain(o: Out, ch: char): (r: Out)
    requires Ok(o.screen) && ch != '\t'
    ensures Ok(r.screen) && (InStep(o) ==> InStep(r))
    ensures SameSettings(o, r)
  {
    var p := ToScreen(o, ch);
    p.(written := Wrap(p.written + 1))
  }

  function PutSpaceTimes(o: Out, n: nat): (r: Out)
    requires Ok(o.screen)
    ensures Ok(r.screen) && (InStep(o) ==> InStep(r))
    ensures SameSettings(o, r)
  {
    if n == 0 then o else PutPlain(PutSpaceTimes(o, n - 1), ' ')
  }

  lemma SpaceIsPlain(o: Out)
    requires Ok(o.screen)
    ensures CanEmit(o, ' ') && EmitOne(o, ' ') == PutPlain(o, ' ')
  {
  }

  predicate Expands(o: Out, ch: char) { o.mode.Cooked? && o.config.tabExpand && ch == '\t' }

  predicate AddsReturn(o: Out, ch: char) { o.mode.Cooked? && o.config.crlf && ch == '\n' }

  /** The character does not make vga_tab loop. */
  predicate CanEmit(o: Out, ch: char)
  {
    o.current && !Expands(o, ch) ==> CanPut(o.screen, ch)
  }

  /** tty_process_output_char. */
  function Emit(o: Out, ch: char): (r: Out)
    requires Ok(o.screen) && CanEmit(o, ch)
    ensures Ok(r.screen) && (InStep(o) ==> InStep(r))
    ensures SameSettings(o, r)
  {
    if Expands(o, ch) then PutSpaceTimes(o, 8 - o.cx % 8)
    else if AddsReturn(o, ch) then ToScreen(PutPlain(o, '\r'), ch)
    else ToScreen(o, ch)
  }

  function EmitOne(o: Out, ch: char): (r: Out)
    requires Ok(o.screen) && CanEmit(o, ch)
    ensures Ok(r.screen) && (InStep(o) ==> InStep(r))
    ensures SameSettings(o, r)
  {
    var p := Emit(o, ch);
    p.(written := Wrap(p.written + 1))
  }

  predicate CanWrite(o: Out, data: seq<char>)
    requires Ok(o.screen)
    decreases |data|
  {
    data == [] || (CanEmit(o, data[0]) && CanWrite(EmitOne(o, data[0]), data[1..]))
  }

  /** tty_write. */
  function Write(o: Out, data: seq<char>): (r: Out)
    requires Ok(o.screen) && CanWrite(o, data)
    ensures Ok(r.screen) && (InStep(o) ==> InStep(r))
    ensures SameSettings(o, r)
    decreases |data|
  {
    if data == [] then o else Write(EmitOne(o, data[0]), data[1..])
  }

  /** Writing from position i on starts with the character there. */
  lemma WriteNext(o: Out, data: seq<char>, i: nat)
    requires Ok(o.screen) && i < |data| && CanWrite(o, data[i..])
    ensures CanEmit(o, data[i]) && CanWrite(EmitOne(o, data[i]), data[i+1..])
    ensures Write(o, data[i..]) == Write(EmitOne(o, data[i]), data[i+1..])
  {
    assert data[i..][0] == data[i] && data[i..][1..] == data[i+1..];
  }

  /** With tab expansion on, cooked output can never hang. */
  lemma {:induction false} CookedAlwaysWrites(o: Out, data: seq<char>)
    requires Ok(o.screen) && o.mode.Cooked? && o.config.tabExpand
    ensures CanWrite(o, data)
    decreases |data|
  {
    if data != [] { CookedAlwaysWrites(EmitOne(o, data[0]), data[1..]); }
  }

  // ---- What reaches the screen --------------------------------------------

  predicate NoTab(s: seq<char>) { forall i :: 0 <= i < |s| ==> s[i] != '\t' }

  /** Every newline comes right after a carriage return. */
  predicate ReturnsBeforeNewlines(s: seq<char>)
  {
    forall i :: 0 <= i < |s| && s[i] == '\n' ==> 0 < i && s[i-1] == '\r'
  }

  lemma {:induction false} SpacesSent(o: Out, n: nat)
    requires Ok(o.screen)
    ensures PutSpaceTimes(o, n).sent == o.sent + if o.current then seq(n, _ => ' ') else []
  {
    if n > 0 {
      SpacesSent(o, n - 1);
      if o.current { assert seq(n, _ => ' ') == seq(n - 1, _ => ' ') + [' ']; }
    } else {
      assert o.sent + [] == o.sent;
    }
  }

  /** The characters one output character turns into. */
  lemma EmitSent(o: Out, ch: char)
    requires Ok(o.screen) && CanEmit(o, ch)
    ensures Emit(o, ch).sent == o.sent +
      if !o.current then []
      else if Expands(o, ch) then seq(8 - o.cx % 8, _ => ' ')
      else if AddsReturn(o, ch) then ['\r', ch]
      else [ch]
  {
    if Expands(o, ch) { SpacesSent(o, 8 - o.cx % 8); }
  }

  /** With tab expansion on, cooked output passes no tab to the screen; with crlf
      on, it precedes every newline by a carriage return. */
  lemma {:induction false} CookedStream(o: Out, data: seq<char>)
    requires Ok(o.screen) && CanWrite(o, data) && o.mode.Cooked?
    ensures o.config.tabExpand && NoTab(o.sent) ==> NoTab(Write(o, data).sent)
    ensures o.config.crlf && ReturnsBeforeNewlines(o.sent) ==> ReturnsBeforeNewlines(Write(o, data).sent)
    decreases |data|
  {
    if data != [] {
      EmitSent(o, data[0]);
      CookedStream(EmitOne(o, data[0]), data[1..]);
    }
  }

  /** The screen shows page p with everything sent since the first n characters
      written on it. */
  predicate Tracks(o: Out, p: Page, n: nat)
    requires PageOk(p)
  {
    n <= |o.sent| && Shows(o.screen, PageAll(p, MakeColor(o.fg, o.bg), o.sent[n..]))
  }

  lemma SendTracks(o: Out, ch: char, p: Page, n: nat)
    requires Ok(o.screen) && PageOk(p) && Tracks(o, p, n) && (o.current ==> CanPut(o.screen, ch))
    ensures Tracks(ToScreen(o, ch), p, n)
  {
    if o.current {
      var c, s := MakeColor(o.fg, o.bg), o.sent[n..];
      ShowsChar(SetColor(o.screen, o.fg, o.bg), PageAll(p, c, s), ch);
      PageAllNext(p, c, s, ch);
      assert (o.sent + [ch])[n..] == s + [ch];
    }
  }

  lemma {:induction false} SpacesTrack(o: Out, k: nat, p: Page, n: nat)
    requires Ok(o.screen) && PageOk(p) && Tracks(o, p, n)
    ensures Tracks(PutSpaceTimes(o, k), p, n)
  {
    if k > 0 {
      SpacesTrack(o, k - 1, p, n);
      SendTracks(PutSpaceTimes(o, k - 1), ' ', p, n);
    }
  }

  lemma EmitTracks(o: Out, ch: char, p: Page, n: nat)
    requires Ok(o.screen) && PageOk(p) && Tracks(o, p, n) && CanEmit(o, ch)
    ensures Tracks(Emit(o, ch), p, n)
  {
    if Expands(o, ch) {
      SpacesTrack(o, 8 - o.cx % 8, p, n);
    } else if AddsReturn(o, ch) {
      SendTracks(o, '\r', p, n);
      SendTracks(PutPlain(o, '\r'), ch, p, n);
    } else {
      SendTracks(o, ch, p, n);
    }
  }

  lemma {:induction false} WriteTracks(o: Out, data: seq<char>, p: Page, n: nat)
    requires Ok(o.screen) && CanWrite(o, data) && PageOk(p) && Tracks(o, p, n)
    ensures Tracks(Write(o, data), p, n)
    decreases |data|
  {
    if data != [] {
      EmitTracks(o, data[0], p, n);
      WriteTracks(EmitOne(o, data[0]), data[1..], p, n);
    }
  }

  /** After any output the screen is the bottom window of the unbounded page on which
      the characters sent meanwhile have been written in the tty's colours. */
  lemma WriteShows(o: Out, data: seq<char>, p: Page)
    requires Shows(o.screen, p) && CanWrite(o, data)
    ensures |o.sent| <= |Write(o, data).sent|
    ensures Shows(Write(o, data).screen, PageAll(p, MakeColor(o.fg, o.bg), Write(o, data).sent[|o.sent|..]))
  {
    assert o.sent[|o.sent|..] == [];
    WriteTracks(o, data, p, |o.sent|);
  }

  lemma SpaceMoves(o: Out)
    requires InStep(o) && o.current
    ensures PutPlain(o, ' ').cx == if o.cx + 1 == WIDTH then 0 else o.cx + 1
  {
  }

  lemma {:induction false} SpacesMove(o: Out, n: nat)
    requires InStep(o) && o.current && o.cx + n <= WIDTH
    ensures PutSpaceTimes(o, n).cx == if o.cx + n == WIDTH && 0 < n then 0 else o.cx + n
  {
    if n > 0 {
      SpacesMove(o, n - 1);
      SpaceMoves(PutSpaceTimes(o, n - 1));
    }
  }

  /** A tab takes the cursor of the current tty to the next multiple of 8, modulo
      the line length. */
  lemma TabStops(o: Out)
    requires InStep(o) && o.current && o.mode.Cooked? && o.config.tabExpand
    ensures var r := Emit(o, '\t'); r.cx == (o.cx / 8 + 1) * 8 % WIDTH && r.screen.x == r.cx
  {
    SpacesMove(o, 8 - o.cx % 8);
    assert o.cx + (8 - o.cx % 8) == (o.cx / 8 + 1) * 8;
  }

  // ---- Input: the line editor ---------------------------------------------

  /** line: the characters typed since the last return; queue: what tty_read can
      take. */
  datatype Editor = Editor(line: seq<char>, queue: seq<char>)

  datatype Event =
    | Key(ch: char)
    | Read(size: nat)
    | Flush

  predicate EditorOk(e: Editor) { |e.line| < LINE && |e.queue| <= RING }

  /** The longest prefix of s that still fits. */
  function Fit(queue: seq<char>, s: seq<char>): seq<char>
  {
    if |queue| >= RING then [] else s[..Min(|s|, RING - |queue|)]
  }

  function Type(e: Editor, ch: char): (r: Editor)
    requires EditorOk(e)
    ensures EditorOk(r)
  {
    if ch == '\n' || ch == '\r' then Editor([], e.queue + Fit(e.queue, e.line + ['\n']))
    else if ch == BS then e.(line := if e.line == [] then [] else e.line[..|e.line|-1])
    else if |e.line| < LINE - 1 then e.(line := e.line + [ch])
    else e
  }

  /** Queueing one more character keeps the longest prefix that fits. */
  lemma FitOneMore(queue: seq<char>, s: seq<char>, i: nat)
    requires |queue| <= RING && i < |s|
    ensures var q := queue + Fit(queue, s[..i]); q + Fit(q, [s[i]]) == queue + Fit(queue, s[..i+1])
  {
    var q := queue + Fit(queue, s[..i]);
    if |queue| + i < RING {
      assert Fit(queue, s[..i]) == s[..i] && Fit(q, [s[i]]) == [s[i]];
      assert Fit(queue, s[..i+1]) == s[..i+1] == s[..i] + [s[i]];
    } else {
      assert Fit(q, [s[i]]) == [];
      if |queue| < RING { assert s[..i][..RING - |queue|] == s[..i+1][..RING - |queue|]; }
    }
  }

  // ---- Echo ---------------------------------------------------------------

  /** The key is stored and shown: it is none of return, newline and backspace,
      and the line has room. */
  predicate Stored(line: seq<char>, ch: char)
  {
    ch != '\n' && ch != '\r' && ch != BS && |line| < LINE - 1
  }

  predicate CanEcho(o: Out, line: seq<char>, ch: char)
  {
    o.config.echo && Stored(line, ch) ==> CanEmit(o, ch)
  }

  /** What the display shows of a key: a return as CR and LF, an effective
      backspace as backspace, space, backspace, a stored key as itself. */
  function Echo(o: Out, line: seq<char>, ch: char): (r: Out)
    requires Ok(o.screen) && CanEcho(o, line, ch)
    ensures Ok(r.screen) && (InStep(o) ==> InStep(r))
  {
    if !o.config.echo then o
    else if ch == '\n' || ch == '\r' then EmitOne(EmitOne(o, '\r'), '\n')
    else if ch == BS then if line == [] then o else EmitOne(EmitOne(EmitOne(o, BS), ' '), BS)
    else if Stored(line, ch) then EmitOne(o, ch)
    else o
  }

  lemma {:induction false} SpacesShown(o: Out, n: nat)
    requires InStep(o) && o.current
    ensures PutSpaceTimes(o, n).screen == if n == 0 then o.screen else PutSpaces(SetColor(o.screen, o.fg, o.bg), n)
  {
    if n > 1 {
      SpacesShown(o, n - 1);
      SpacesColoured(SetColor(o.screen, o.fg, o.bg), n - 1);
    } else if n == 1 {
      assert PutSpaceTimes(o, 0) == o;
      assert PutSpaces(SetColor(o.screen, o.fg, o.bg), 0) == SetColor(o.screen, o.fg, o.bg);
    }
  }

  lemma {:induction false} SpacesColoured(v: Screen, n: nat)
    requires Ok(v)
    ensures var r := PutSpaces(v, n); r.fg == v.fg && r.bg == v.bg && r.color == v.color
  {
    if n > 0 { SpacesColoured(v, n - 1); }
  }

  /** The screen after the echo of a stored key, and after its erasure. */
  lemma KeyShown(o: Out, ch: char)
    requires InStep(o) && o.current && Stored([], ch) && CanEmit(o, ch)
    ensures EmitOne(o, ch).screen == ShownKey(SetColor(o.screen, o.fg, o.bg), ch)
  {
    if Expands(o, ch) { ExpandedShown(o, ch); } else { UnexpandedShown(o, ch); }
  }

  lemma ExpandedShown(o: Out, ch: char)
    requires InStep(o) && o.current && Expands(o, ch)
    ensures EmitOne(o, ch).screen == ShownKey(SetColor(o.screen, o.fg, o.bg), ch)
  {
    var n := 8 - o.cx % 8;
    SpacesShown(o, n);
    ExpandedScreen(o, ch, n);
    TabSpaces(SetColor(o.screen, o.fg, o.bg), n);
  }

  lemma ExpandedScreen(o: Out, ch: char, n: nat)
    requires Ok(o.screen) && Expands(o, ch) && n == 8 - o.cx % 8
    ensures EmitOne(o, ch).screen == PutSpaceTimes(o, n).screen
  {
  }

  lemma TabSpaces(v: Screen, n: nat)
    requires Ok(v) && n == TAB - v.x % TAB
    ensures 0 < n && ShownKey(v, '\t') == PutSpaces(v, n)
  {
  }

  lemma UnexpandedShown(o: Out, ch: char)
    requires InStep(o) && o.current && Stored([], ch) && CanEmit(o, ch) && !Expands(o, ch)
    ensures EmitOne(o, ch).screen == ShownKey(SetColor(o.screen, o.fg, o.bg), ch)
  {
    assert EmitOne(o, ch).screen == ToScreen(o, ch).screen;
  }

  predicate Coloured(o: Out)
  {
    o.screen == SetColor(o.screen, o.fg, o.bg)
  }

  lemma KeyColoured(v: Screen, ch: char)
    requires Ok(v)
    ensures var r := ShownKey(v, ch); r.fg == v.fg && r.bg == v.bg && r.color == v.color
  {
    if ch == '\t' { SpacesColoured(v, TAB - v.x % TAB); }
  }

  lemma EraseShown(o: Out)
    requires InStep(o) && o.current && Coloured(o)
    ensures EmitOne(EmitOne(EmitOne(o, BS), ' '), BS).screen == Erase(o.screen)
  {
    var a := EmitOne(o, BS);
    var b := EmitOne(a, ' ');
    assert a.screen == PutChar(o.screen, BS) && Coloured(a);
    assert b.screen == PutChar(a.screen, ' ') && Coloured(b);
  }

  /** The display after a key has been typed and erased again: a blank cell under
      the cursor, the cursor where it was, no other trace. */
  predicate NoTrace(o: Out, r: Out)
    requires Ok(o.screen)
  {
    r.screen == Blanked(SetColor(o.screen, o.fg, o.bg)) && r.cx == o.cx && r.cy == o.cy
  }

  /** Echoing and erasing a stored key leaves no trace on the tty on the screen
      exactly when the key took one cell other than the last one of the screen, or
      showed nothing with the cursor at the top left. */
  lemma BackspaceErasesEcho(o: Out, line: seq<char>, ch: char)
    requires InStep(o) && o.current && o.config.echo && Stored(line, ch) && CanEcho(o, line, ch)
    ensures Echo(o, line, ch).current && Ok(Echo(o, line, ch).screen)
    ensures NoTrace(o, Echo(Echo(o, line, ch), line + [ch], BS)) <==> Erasable(o.screen, ch)
  {
    var v, typed := SetColor(o.screen, o.fg, o.bg), EmitOne(o, ch);
    KeyShown(o, ch);
    KeyColoured(v, ch);
    EraseShown(typed);
    EraseExact(v, ch);
  }

  /** A tab typed at a tab stop and erased leaves the cursor seven cells on. */
  lemma TabLeavesBlanks(o: Out, line: seq<char>)
    requires InStep(o) && o.current && o.config.echo && |line| < LINE - 1 && o.cx == 0
    ensures CanEcho(o, line, '\t')
    ensures Echo(Echo(o, line, '\t'), line + ['\t'], BS).cx == 7
  {
    var v, typed := SetColor(o.screen, o.fg, o.bg), EmitOne(o, '\t');
    KeyShown(o, '\t');
    KeyColoured(v, '\t');
    EraseShown(typed);
    EraseTab(v);
  }

  /** A key typed in the last cell of the screen and erased leaves the cursor a line
      higher. */
  lemma CornerMovesUp(o: Out, line: seq<char>)
    requires InStep(o) && o.current && o.config.echo && |line| < LINE - 1
    requires o.cx == WIDTH - 1 && o.cy == HEIGHT - 1
    ensures CanEcho(o, line, 'x')
    ensures Echo(Echo(o, line, 'x'), line + ['x'], BS).cy == HEIGHT - 2
  {
    var v, typed := SetColor(o.screen, o.fg, o.bg), EmitOne(o, 'x');
    KeyShown(o, 'x');
    KeyColoured(v, 'x');
    EraseShown(typed);
    EraseCorner(v, 'x');
  }

  // ---- What a typed line looks like ---------------------------------------

  lemma EmitOneTracks(o: Out, ch: char, p: Page, n: nat)
    requires Ok(o.screen) && PageOk(p) && Tracks(o, p, n) && CanEmit(o, ch)
    ensures Tracks(EmitOne(o, ch), p, n)
  {
    EmitTracks(o, ch, p, n);
  }

  lemma EchoTracks(o: Out, line: seq<char>, ch: char, p: Page, n: nat)
    requires Ok(o.screen) && PageOk(p) && Tracks(o, p, n) && CanEcho(o, line, ch)
    ensures Tracks(Echo(o, line, ch), p, n)
  {
    if !o.config.echo {
    } else if ch == '\n' || ch == '\r' {
      EmitOneTracks(o, '\r', p, n);
      EmitOneTracks(EmitOne(o, '\r'), '\n', p, n);
    } else if ch == BS {
      if line != [] {
        EmitOneTracks(o, BS, p, n);
        EmitOneTracks(EmitOne(o, BS), ' ', p, n);
        EmitOneTracks(EmitOne(EmitOne(o, BS), ' '), BS, p, n);
      }
    } else if Stored(line, ch) {
      EmitOneTracks(o, ch, p, n);
    }
  }

  /** The characters that end a line on the screen when return is typed. */
  function LineEnd(o: Out): seq<char>
  {
    if o.mode.Cooked? && o.config.crlf then ['\r', '\r', '\n'] else ['\r', '\n']
  }

  lemma ReturnSent(o: Out, line: seq<char>, ch: char)
    requires Ok(o.screen) && o.current && o.config.echo && (ch == '\n' || ch == '\r')
    ensures Echo(o, line, ch).sent == o.sent + LineEnd(o)
  {
    EmitSent(o, '\r');
    EmitSent(EmitOne(o, '\r'), '\n');
    assert o.sent + ['\r'] + ['\r', '\n'] == o.sent + ['\r', '\r', '\n'];
    assert o.sent + ['\r'] + ['\n'] == o.sent + ['\r', '\n'];
  }

  /** The display after the keys of s have been typed on an empty line. */
  function EchoAll(o: Out, s: seq<char>): (r: Out)
    requires Ok(o.screen) && forall i :: 0 <= i < |s| ==> Printable(s[i])
    ensures Ok(r.screen) && SameSettings(o, r)
  {
    if s == [] then o
    else
      assert Printable(s[|s|-1]);
      Echo(EchoAll(o, s[..|s|-1]), s[..|s|-1], s[|s|-1])
  }

  /** The display tracks page p and the keys of s have been sent. */
  predicate Typed(o: Out, r: Out, s: seq<char>, p: Page, n: nat)
    requires PageOk(p)
  {
    Ok(r.screen) && SameSettings(o, r) && Tracks(r, p, n) && r.sent == o.sent + s
  }

  lemma {:induction false} KeysShown(o: Out, s: seq<char>, p: Page, n: nat)
    requires Ok(o.screen) && o.current && o.config.echo && |s| < LINE && PageOk(p) && Tracks(o, p, n)
    requires forall i :: 0 <= i < |s| ==> Printable(s[i])
    ensures Typed(o, EchoAll(o, s), s, p, n)
  {
    if s == [] {
      assert o.sent + s == o.sent;
    } else {
      KeysShown(o, s[..|s|-1], p, n);
      KeyTyped(o, EchoAll(o, s[..|s|-1]), s[..|s|-1], s[|s|-1], p, n);
      assert s[..|s|-1] + [s[|s|-1]] == s;
    }
  }

  lemma KeyTyped(o: Out, r: Out, line: seq<char>, ch: char, p: Page, n: nat)
    requires o.current && o.config.echo && |line| < LINE - 1 && Printable(ch) && PageOk(p) && Typed(o, r, line, p, n)
    ensures CanEcho(r, line, ch) && Typed(o, Echo(r, line, ch), line + [ch], p, n)
  {
    KeyEchoed(r, line, ch, p, n);
    assert o.sent + line + [ch] == o.sent + (line + [ch]);
  }

  lemma KeyEchoed(o: Out, line: seq<char>, ch: char, p: Page, n: nat)
    requires Ok(o.screen) && o.current && o.config.echo && |line| < LINE - 1 && Printable(ch) && PageOk(p) && Tracks(o, p, n)
    ensures CanEcho(o, line, ch) && Tracks(Echo(o, line, ch), p, n) && Echo(o, line, ch).sent == o.sent + [ch]
  {
    EchoTracks(o, line, ch, p, n);
    EmitSent(o, ch);
  }

  lemma LineEndCells(p: Page, color: nat, end: seq<char>)
    requires PageOk(p) && (end == ['\r', '\n'] || end == ['\r', '\r', '\n'])
    ensures var q := PageAll(p, color, end); q.x == 0 && q.y == p.y + 1 && HasText(p, q, color, 0, [])
  {
    var u := PageChar(p, color, '\r');
    assert end[1..] == ['\n'] || (end[1..] == ['\r', '\n'] && end[1..][1..] == ['\n']);
    PageOne(u, color, '\n');
    NewlineCells(u, color);
    SameCells(p, u, PageChar(u, color, '\n'), color);
  }

  lemma SameCells(p: Page, u: Page, q: Page, color: nat)
    requires u.cells == p.cells && HasText(u, q, color, 0, [])
    ensures HasText(p, q, color, 0, [])
  {
    forall at: nat ensures CellAt(q, color, at) == WithText(p, color, 0, [], at) {
      assert CellAt(q, color, at) == WithText(u, color, 0, [], at);
    }
  }

  /** A line of printable keys and a return, typed with echo on the tty on the screen:
      the screen shows the line from where the cursor was, nothing else has changed, and
      the cursor is at the start of the line after it. */
  lemma LineEchoed(o: Out, s: seq<char>, p: Page)
    requires InStep(o) && o.current && o.config.echo && Shows(o.screen, p) && |s| < LINE
    requires forall i :: 0 <= i < |s| ==> Printable(s[i])
    ensures var color := MakeColor(o.fg, o.bg); var q := PageAll(p, color, s + LineEnd(o));
      && Shows(Echo(EchoAll(o, s), s, '\n').screen, q)
      && HasText(p, q, color, Place(p), s) && q.x == 0 && q.y == (Place(p) + |s|) / 80 + 1
  {
    LineEchoedScreen(o, s, p);
    LineCells(p, MakeColor(o.fg, o.bg), s, LineEnd(o));
  }

  lemma LineEchoedScreen(o: Out, s: seq<char>, p: Page)
    requires InStep(o) && o.current && o.config.echo && Shows(o.screen, p) && |s| < LINE
    requires forall i :: 0 <= i < |s| ==> Printable(s[i])
    ensures Shows(Echo(EchoAll(o, s), s, '\n').screen, PageAll(p, MakeColor(o.fg, o.bg), s + LineEnd(o)))
  {
    var n, typed := |o.sent|, EchoAll(o, s);
    assert o.sent[n..] == [];
    KeysShown(o, s, p, n);
    EchoTracks(typed, s, '\n', p, n);
    ReturnSent(typed, s, '\n');
    assert (o.sent + s + LineEnd(o))[n..] == s + LineEnd(o);
  }

  lemma LineCells(p: Page, color: nat, s: seq<char>, end: seq<char>)
    requires PageOk(p) && (end == ['\r', '\n'] || end == ['\r', '\r', '\n'])
    requires forall i :: 0 <= i < |s| ==> Printable(s[i])
    ensures var q := PageAll(p, color, s + end);
      HasText(p, q, color, Place(p), s) && q.x == 0 && q.y == (Place(p) + |s|) / 80 + 1
  {
    TextCells(p, color, s);
    PageConcat(p, color, s, end);
    var u := PageAll(p, color, s);
    LineEndCells(u, color, end);
    NothingAdded(p, u, PageAll(u, color, end), color, Place(p), s);
    LineOfPlace(u);
  }

  lemma LineOfPlace(p: Page)
    requires PageOk(p)
    ensures Place(p) / 80 == p.y
  {
  }

  // ---- Output counts ------------------------------------------------------

  function Tabs(data: seq<char>): nat
  {
    if data == [] then 0 else (if data[0] == '\t' then 1 else 0) + Tabs(data[1..])
  }

  /** 32-bit counters: b is a and n more. */
  predicate CountedOn(a: nat, b: nat, n: nat) { b == Wrap(a + n) }

  lemma CountsJoin(a: nat, b: nat, c: nat, m: nat, n: nat)
    requires CountedOn(a, b, m) && CountedOn(b, c, n)
    ensures CountedOn(a, c, m + n)
  {
    WrapSum(a + m, n);
  }

  lemma WrapSum(x: nat, n: nat)
    ensures Wrap(Wrap(x) + n) == Wrap(x + n)
  {
    var q := x / 0x1_0000_0000;
    assert x == 0x1_0000_0000 * q + Wrap(x);
    WrapMultiple(Wrap(x) + n, q);
  }

  lemma WrapMultiple(y: nat, q: nat)
    ensures Wrap(0x1_0000_0000 * q + y) == Wrap(y)
  {
    var m := 0x1_0000_0000;
    assert m * q + y == m * (q + y / m) + y % m;
  }

  lemma {:induction false} SpacesCounted(o: Out, n: nat)
    requires Ok(o.screen) && o.written < 0x1_0000_0000
    ensures CountedOn(o.written, PutSpaceTimes(o, n).written, n)
  {
    if n > 0 {
      SpacesCounted(o, n - 1);
      CountsJoin(o.written, PutSpaceTimes(o, n - 1).written, PutSpaceTimes(o, n).written, n - 1, 1);
    }
  }

  /** What one character of output adds to the count. */
  function Added(o: Out, ch: char): nat
  {
    if Expands(o, ch) then 8 - o.cx % 8 + 1 else if AddsReturn(o, ch) then 2 else 1
  }

  lemma EmitCounted(o: Out, ch: char)
    requires Ok(o.screen) && CanEmit(o, ch) && o.written < 0x1_0000_0000
    ensures CountedOn(o.written, EmitOne(o, ch).written, Added(o, ch))
  {
    if Expands(o, ch) {
      var n := 8 - o.cx % 8;
      SpacesCounted(o, n);
      CountsJoin(o.written, PutSpaceTimes(o, n).written, EmitOne(o, ch).written, n, 1);
    } else if AddsReturn(o, ch) {
      CountsJoin(o.written, Wrap(o.written + 1), EmitOne(o, ch).written, 1, 1);
    }
  }

  function AddedAll(o: Out, data: seq<char>): nat
    requires Ok(o.screen) && CanWrite(o, data)
    decreases |data|
  {
    if data == [] then 0 else Added(o, data[0]) + AddedAll(EmitOne(o, data[0]), data[1..])
  }

  lemma {:induction false} AllCounted(o: Out, data: seq<char>)
    requires Ok(o.screen) && CanWrite(o, data) && o.written < 0x1_0000_0000
    ensures CountedOn(o.written, Write(o, data).written, AddedAll(o, data))
    decreases |data|
  {
    if data != [] {
      var next := EmitOne(o, data[0]);
      EmitCounted(o, data[0]);
      AllCounted(next, data[1..]);
      CountsJoin(o.written, next.written, Write(next, data[1..]).written, Added(o, data[0]), AddedAll(next, data[1..]));
    }
  }

  lemma {:induction false} AddedIsSent(o: Out, data: seq<char>)
    requires Ok(o.screen) && o.current && CanWrite(o, data)
    ensures |o.sent| <= |Write(o, data).sent|
    ensures AddedAll(o, data) ==
      |Write(o, data).sent| - |o.sent| + if o.mode.Cooked? && o.config.tabExpand then Tabs(data) else 0
    decreases |data|
  {
    if data != [] {
      EmitSent(o, data[0]);
      AddedIsSent(EmitOne(o, data[0]), data[1..]);
    }
  }

  /** bytes_written of the tty on the screen counts what was sent to the screen, and one
      more for each tab that was expanded. */
  lemma WrittenCounted(o: Out, data: seq<char>)
    requires Ok(o.screen) && o.current && CanWrite(o, data) && o.written < 0x1_0000_0000
    ensures var r := Write(o, data);
      && |o.sent| <= |r.sent|
      && CountedOn(o.written, r.written,
                   |r.sent| - |o.sent| + if o.mode.Cooked? && o.config.tabExpand then Tabs(data) else 0)
  {
    AllCounted(o, data);
    AddedIsSent(o, data);
  }

  // ---- What backspaces leave of a line ------------------------------------

  /** The keys that no later backspace takes back, when `skip` more backspaces follow:
      read from the right. */
  function Surviving(s: seq<char>, skip: nat): seq<char>
  {
    if s == [] then []
    else
      var before, ch := s[..|s|-1], s[|s|-1];
      if ch == BS then Surviving(before, skip + 1)
      else if skip > 0 then Surviving(before, skip - 1)
      else Surviving(before, 0) + [ch]
  }

  predicate NoReturn(s: seq<char>) { forall i :: 0 <= i < |s| ==> s[i] != '\n' && s[i] != '\r' }

  /** A line without its last n characters. */
  function Shortened(line: seq<char>, n: nat): seq<char> { if n <= |line| then line[..|line| - n] else [] }

  lemma ShortenedTwice(line: seq<char>, n: nat)
    ensures Shortened(Shortened(line, 1), n) == Shortened(line, n + 1)
  {
  }

  lemma ShortenedNext(line: seq<char>, ch: char, n: nat)
    ensures Shortened(line + [ch], n) == if n > 0 then Shortened(line, n - 1) else line + [ch]
  {
  }

  lemma TypeLine(e: Editor, ch: char)
    requires EditorOk(e) && |e.line| < LINE - 1 && ch != '\n' && ch != '\r'
    ensures Step(e, Key(ch)) == e.(line := if ch == BS then Shortened(e.line, 1) else e.line + [ch])
  {
  }

  lemma {:induction false} LineSurvives(e: Editor, s: seq<char>, skip: nat)
    requires EditorOk(e) && e.line == [] && |s| < LINE && NoReturn(s)
    ensures var r := Run(e, Keys(s));
      r.queue == e.queue && |r.line| <= |s| && Surviving(s, skip) == Shortened(r.line, skip)
    decreases |s|
  {
    if s != [] {
      var before, ch := s[..|s|-1], s[|s|-1];
      assert Keys(s)[..|s|-1] == Keys(before);
      LineSurvives(e, before, if ch == BS then skip + 1 else if skip > 0 then skip - 1 else 0);
      var b := Run(e, Keys(before));
      TypeLine(b, ch);
      if ch == BS { ShortenedTwice(b.line, skip); } else { ShortenedNext(b.line, ch, skip); }
    }
  }

  /** A line typed with corrections: what is queued by return is exactly the keys that
      no backspace took back, and a newline. */
  lemma CorrectedLine(e: Editor, s: seq<char>)
    requires EditorOk(e) && e.line == [] && |s| < LINE && NoReturn(s) && |e.queue| + |s| + 1 <= RING
    ensures Step(Run(e, Keys(s)), Key('\n')) == Editor([], e.queue + Surviving(s, 0) + ['\n'])
    ensures Step(Run(e, Keys(s)), Key('\r')) == Editor([], e.queue + Surviving(s, 0) + ['\n'])
  {
    LineSurvives(e, s, 0);
    var line := Run(e, Keys(s)).line;
    assert Fit(e.queue, line + ['\n']) == line + ['\n'];
    assert e.queue + (line + ['\n']) == e.queue + line + ['\n'];
  }

  /** A full line of 1023 characters takes no more. */
  lemma FullLine(e: Editor, ch: char)
    requires EditorOk(e) && ch != '\n' && ch != '\r' && ch != BS
    ensures Step(e, Key(ch)) == if |e.line| == 1023 then e else e.(line := e.line + [ch])
  {
  }

  /** The queue holds 4096 characters: what is queued more is cut to what still fits. */
  lemma QueueCapacity(queue: seq<char>, s: seq<char>)
    requires |queue| <= 4096
    ensures |queue + Fit(queue, s)| == Min(4096, |queue| + |s|) && Fit(queue, s) <= s
  {
  }

  /** A read takes from the front of the queue, as many as asked for or all there are. */
  lemma ReadSplits(e: Editor, size: nat)
    requires EditorOk(e)
    ensures var taken, rest := Taken(e, Read(size)), Step(e, Read(size)).queue;
      taken + rest == e.queue && |taken| <= size && (|taken| < size ==> rest == [])
    ensures Step(e, Read(size)).line == e.line
  {
  }

  /** After a flush, whatever was there before, a line that is typed and read comes back
      alone. */
  lemma FlushedLine(e: Editor, s: seq<char>)
    requires EditorOk(e) && |s| < LINE
    requires forall i :: 0 <= i < |s| ==> s[i] != '\n' && s[i] != '\r' && s[i] != BS
    ensures Taken(Step(Run(Step(e, Flush), Keys(s)), Key('\n')), Read(|s| + 1)) == s + ['\n']
  {
    LineComesBack(Step(e, Flush), s);
    assert [] + s + ['\n'] == s + ['\n'];
  }

  /** The bytes an event hands to the reader. */
  function Taken(e: Editor, ev: Event): seq<char>
  {
    if ev.Read? then e.queue[..Min(ev.size, |e.queue|)] else []
  }

  function Step(e: Editor, ev: Event): (r: Editor)
    requires EditorOk(e)
    ensures EditorOk(r)
  {
    match ev
    case Key(ch) => Type(e, ch)
    case Read(size) => e.(queue := e.queue[Min(size, |e.queue|)..])
    case Flush => Editor([], [])
  }

  function Run(e: Editor, evs: seq<Event>): (r: Editor)
    requires EditorOk(e)
    ensures EditorOk(r)
  {
    if evs == [] then e else Step(Run(e, evs[..|evs|-1]), evs[|evs|-1])
  }

  /** All bytes handed out over a run. */
  function BytesRead(e: Editor, evs: seq<Event>): seq<char>
    requires EditorOk(e)
  {
    if evs == [] then []
    else BytesRead(e, evs[..|evs|-1]) + Taken(Run(e, evs[..|evs|-1]), evs[|evs|-1])
  }

  /** The reference: a log that only grows by committed lines, and how much of it
      has been read. A commit is cut to what fits in RING unread bytes; a flush
      drops the unread part. */
  datatype Log = Log(line: seq<char>, text: seq<char>, taken: nat)

  function LogStep(g: Log, ev: Event): Log
    requires g.taken <= |g.text|
  {
    match ev
    case Key(ch) =>
      if ch == '\n' || ch == '\r' then
        var room := RING - (|g.text| - g.taken);
        var commit := g.line + ['\n'];
        g.(line := [], text := g.text + if room <= 0 then [] else commit[..Min(|commit|, room)])
      else if ch == BS then g.(line := if g.line == [] then [] else g.line[..|g.line|-1])
      else if |g.line| < LINE - 1 then g.(line := g.line + [ch])
      else g
    case Read(size) => g.(taken := Min(|g.text|, g.taken + size))
    case Flush => Log([], g.text[..g.taken], g.taken)
  }

  function LogRun(g: Log, evs: seq<Event>): (r: Log)
    requires g.taken <= |g.text|
    ensures r.taken <= |r.text|
  {
    if evs == [] then g else LogStep(LogRun(g, evs[..|evs|-1]), evs[|evs|-1])
  }

  const FRESH := Editor([], [])
  const EMPTYLOG := Log([], [], 0)

  /** The queue is the unread part of the log, the line the line being typed. */
  predicate Agree(e: Editor, g: Log)
  {
    g.taken <= |g.text| && e.queue == g.text[g.taken..] && e.line == g.line
  }

  lemma {:induction false} LogFollows(evs: seq<Event>)
    ensures Agree(Run(FRESH, evs), LogRun(EMPTYLOG, evs))
    ensures BytesRead(FRESH, evs) == LogRun(EMPTYLOG, evs).text[..LogRun(EMPTYLOG, evs).taken]
  {
    if evs != [] {
      var before := evs[..|evs|-1];
      LogFollows(before);
      LogAgrees(Run(FRESH, before), LogRun(EMPTYLOG, before), evs[|evs|-1]);
    }
  }

  lemma LogAgrees(e: Editor, g: Log, ev: Event)
    requires EditorOk(e) && Agree(e, g)
    ensures var g' := LogStep(g, ev);
      && Agree(Step(e, ev), g')
      && g.text[..g.taken] + Taken(e, ev) == g'.text[..g'.taken]
  {
  }

  /** For any interleaving of keys, reads and flushes, the bytes read are the read
      part of the log and the bytes queued the rest of it. */
  lemma ReadPlusQueued(evs: seq<Event>)
    ensures var g := LogRun(EMPTYLOG, evs); var e := Run(FRESH, evs);
      && BytesRead(FRESH, evs) == g.text[..g.taken]
      && e.queue == g.text[g.taken..]
      && e.line == g.line
      && BytesRead(FRESH, evs) + e.queue == g.text
  {
    LogFollows(evs);
  }

  /** A line comes back as typed: after any state with an empty line and room for
      it, typing the line and a return queues the line and a newline. */
  lemma {:induction false} LineComesBack(e: Editor, s: seq<char>)
    requires EditorOk(e) && e.line == [] && |s| < LINE && |e.queue| + |s| + 1 <= RING
    requires forall i :: 0 <= i < |s| ==> s[i] != '\n' && s[i] != '\r' && s[i] != BS
    ensures Step(Run(e, Keys(s)), Key('\n')) == Editor([], e.queue + s + ['\n'])
  {
    TypedLine(e, s);
  }

  function Keys(s: seq<char>): (r: seq<Event>)
    ensures |r| == |s|
  {
    seq(|s|, i requires 0 <= i < |s| => Key(s[i]))
  }

  lemma {:induction false} TypedLine(e: Editor, s: seq<char>)
    requires EditorOk(e) && e.line == [] && |s| < LINE
    requires forall i :: 0 <= i < |s| ==> s[i] != '\n' && s[i] != '\r' && s[i] != BS
    ensures Run(e, Keys(s)) == Editor(s, e.queue)
  {
    if s != [] {
      TypedLine(e, s[..|s|-1]);
      assert Keys(s)[..|s|-1] == Keys(s[..|s|-1]);
    }
  }
}
