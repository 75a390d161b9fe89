/** The terminal object: the escape buffer and the cursor are updated byte by byte. */
module Terminal {
  import opened Common
  import opened VgaScreen
  import opened TerminalSpec

  datatype EscapeState = Outside | Escape | Csi

  class Terminal {
    var cursorX: Byte
    var cursorY: Byte
    var width: Byte
    var height: Byte
    var defaultFg: Color
    var defaultBg: Color
    var escapeState: EscapeState
    const escapeBuffer: array<char>
    var escapePos: Byte
    ghost var calls: seq<Call>         // requests to the tty for cursor, colours and clearing
    ghost var sent: seq<char>          // bytes passed to tty_write
    ghost var start: Term              // as created
    ghost var done: seq<seq<char>>     // control sequences processed since

    ghost function Value(): Term
      reads `cursorX, `cursorY, `width, `height, `defaultFg, `defaultBg, `calls
    {
      Term(cursorX, cursorY, width, height, defaultFg, defaultBg, calls)
    }

    ghost predicate BufferOk()
      reads this, escapeBuffer
    {
      escapeBuffer.Length == BUFFER && escapePos <= BUFFER && AllSequences(done)
    }

    ghost function Pending(): seq<char>
      requires BufferOk()
      reads this, escapeBuffer
    {
      escapeBuffer[..escapePos]
    }

    ghost function Parser(): Machine
      requires BufferOk()
      reads this, escapeBuffer
    {
      Machine(done, Pending())
    }

    /** The buffer holds the sequence being read and then only zeros; outside a
        sequence it is all zeros. */
    ghost predicate Tidy()
      reads this, escapeBuffer
    {
      && BufferOk() && InSequence(Pending())
      && escapeState == (if escapePos == 0 then Outside else if escapePos == 1 then Escape else Csi)
      && forall k :: escapePos <= k < BUFFER ==> escapeBuffer[k] == NUL
    }

    /** The terminal shows what the sequences so far ask for. */
    ghost predicate Shown()
      requires AllSequences(done)
      reads `cursorX, `cursorY, `width, `height, `defaultFg, `defaultBg, `calls, `start, `done
    {
      Value() == Perform(start, done)
    }

    ghost predicate Valid()
      reads this, escapeBuffer
    {
      Tidy() && Shown()
    }

    // terminal_create, the display part
    constructor ()
      ensures Valid() && fresh(escapeBuffer) && Parser() == IDLE && sent == []
      ensures Value() == start == Term(0, 0, WIDTH, HEIGHT, 7, 0, [])
    {
      cursorX, cursorY, width, height := 0, 0, WIDTH, HEIGHT;
      defaultFg, defaultBg := 7, 0;
      escapeState, escapePos := Outside, 0;
      escapeBuffer := new char[BUFFER](_ => NUL);
      calls, sent, done := [], [], [];
      start := Term(0, 0, WIDTH, HEIGHT, 7, 0, []);
    }

    /** terminal_write to a READY tty: parses every byte, then passes them all on,
        those of control sequences included. */
    method Write(data: seq<char>) returns (n: int)
      requires Valid() && RoomFor(Parser(), data, 0, |data|)
      modifies this, escapeBuffer
      ensures Valid() && start == old(start) && Parser() == Run(old(Parser()), data, 0, |data|)
      ensures sent == old(sent) + data && n == if data == [] then -1 else |data|
    {
      if data == [] {
        return -1;
      }
      ghost var parser := Parser();
      for i := 0 to |data|
        invariant Valid() && Parser() == Run(parser, data, 0, i)
        invariant start == old(start) && sent == old(sent)
      {
        RoomJoins(parser, data, 0, i + 1, |data|);
        var _ := ParseAnsiEscape(data[i]);
      }
      sent := sent + data;
      n := |data|;
    }

    /** Answers 1 for a byte it takes into a sequence. Parameter bytes are taken but
        answered with 0. */
    method ParseAnsiEscape(ch: char) returns (taken: int)
      requires Valid() && Room(Pending(), ch)
      modifies this, escapeBuffer
      ensures Valid() && Parser() == Feed(old(Parser()), ch) && start == old(start) && sent == old(sent)
      ensures taken == if (old(Pending()) == [] && ch != ESC) || (2 <= |old(Pending())| && !Letter(ch)) then 0 else 1
    {
      match escapeState {
        case Outside => taken := InText(ch);
        case Escape => taken := AfterEscape(ch);
        case Csi => taken := InCsi(ch);
      }
    }

    method InText(ch: char) returns (taken: int)
      requires Valid() && escapeState == Outside
      modifies this, escapeBuffer
      ensures Valid() && Parser() == Feed(old(Parser()), ch) && start == old(start) && sent == old(sent)
      ensures taken == if ch == ESC then 1 else 0
    {
      if ch == ESC {
        escapeState := Escape;
        escapePos := 0;
        Append(ch);
        return 1;
      }
      return 0;
    }

    method AfterEscape(ch: char) returns (taken: int)
      requires Valid() && escapeState == Escape
      modifies this, escapeBuffer
      ensures Valid() && Parser() == Feed(old(Parser()), ch) && start == old(start) && sent == old(sent)
      ensures taken == 1
    {
      Append(ch);
      assert Pending() == [ESC, ch];
      if ch == '[' {
        escapeState := Csi;
      } else {
        ResetEscapeState();
      }
      return 1;
    }

    method InCsi(ch: char) returns (taken: int)
      requires Valid() && escapeState == Csi && Room(Pending(), ch)
      modifies this, escapeBuffer
      ensures Valid() && Parser() == Feed(old(Parser()), ch) && start == old(start) && sent == old(sent)
      ensures taken == if Letter(ch) then 1 else 0
    {
      Append(ch);
      if Letter(ch) {
        FinishSequence();
        return 1;
      }
      return 0;
    }

    method FinishSequence()
      requires BufferOk() && 3 <= escapePos < BUFFER && Shown()
      modifies `cursorX, `cursorY, `defaultFg, `defaultBg, `calls, `done, `escapeState, `escapePos, escapeBuffer
      ensures Valid() && Parser() == Machine(old(done) + [old(Pending())], [])
    {
      PutNul();
      RunSequence();
      ResetEscapeState();
    }

    /** The NUL behind the final letter. */
    method PutNul()
      requires BufferOk() && escapePos < BUFFER
      modifies escapeBuffer
      ensures BufferOk() && Pending() == old(Pending()) && escapeBuffer[escapePos] == NUL
    {
      ghost var whole := Pending();
      escapeBuffer[escapePos] := NUL;
      assert Pending() == whole;
    }

    method RunSequence()
      requires BufferOk() && 3 <= escapePos < BUFFER && escapeBuffer[escapePos] == NUL && Shown()
      modifies `cursorX, `cursorY, `defaultFg, `defaultBg, `calls, `done
      ensures BufferOk() && Shown() && done == old(done) + [Pending()]
    {
      PerformNext(start, done, Pending());
      ProcessCsi();
      done := done + [Pending()];
    }

    method Append(ch: char)
      requires BufferOk() && escapePos < BUFFER
      modifies `escapePos, escapeBuffer
      ensures BufferOk() && escapePos == old(escapePos) + 1 && Pending() == old(Pending()) + [ch]
      ensures forall k :: escapePos <= k < BUFFER ==> escapeBuffer[k] == old(escapeBuffer[k])
    {
      escapeBuffer[escapePos] := ch;
      escapePos := escapePos + 1;
    }

    method ResetEscapeState()
      requires BufferOk()
      modifies `escapeState, `escapePos, escapeBuffer
      ensures Tidy() && Pending() == []
    {
      escapeState := Outside;
      escapePos := 0;
      for i := 0 to BUFFER
        invariant escapeState == Outside && escapePos == 0
        invariant forall k :: 0 <= k < i ==> escapeBuffer[k] == NUL
      {
        escapeBuffer[i] := NUL;
      }
    }

    /** terminal_process_csi_sequence: reads its parameters from the escape buffer,
        behind ESC and '['. */
    method ProcessCsi()
      requires BufferOk() && 3 <= escapePos < BUFFER && escapeBuffer[escapePos] == NUL
      modifies `cursorX, `cursorY, `defaultFg, `defaultBg, `calls
      ensures Value() == Execute(old(Value()), Pending()[2..])
    {
      ghost var body := Pending()[2..];
      assert body == escapeBuffer[2..][..escapePos-2];
      ScannedAgrees(body, escapeBuffer[2..]);
      var cmd := escapeBuffer[escapePos-1];
      assert cmd == body[|body|-1];
      ExecuteControl(ControlOf(cmd), escapeBuffer[2..]);
    }

    /** terminal_execute_control. */
    method ExecuteControl(ctrl: Control, params: seq<char>)
      modifies `cursorX, `cursorY, `defaultFg, `defaultBg, `calls
      ensures Value() == Obey(old(Value()), ctrl, Scanned(params))
    {
      var p := Scanned(params);
      match ctrl {
        case Up =>
          cursorY := StepBack(cursorY, p.first);
          SetTtyCursor();
        case Down =>
          cursorY := StepForward(cursorY, p.first, height);
          SetTtyCursor();
        case Right =>
          cursorX := StepForward(cursorX, p.first, width);
          SetTtyCursor();
        case Left =>
          cursorX := StepBack(cursorX, p.first);
          SetTtyCursor();
        case Home =>
          cursorX := (p.second - 1) % 256;
          cursorY := (p.first - 1) % 256;
          SetTtyCursor();
        case ClearScreen =>
          if p.first == 2 {
            calls := calls + [Clear];
          }
        case ColorSet =>
          SelectColor(p.first);
        case ClearLine =>
        case None =>
      }
    }

    method SelectColor(n: int)
      modifies `defaultFg, `defaultBg, `calls
      ensures Value() == Select(old(Value()), n)
    {
      if n == 0 {
        SetColors(defaultFg, defaultBg);
      } else if 30 <= n <= 37 {
        SetColors(n - 30, defaultBg);
      } else if 40 <= n <= 47 {
        SetColors(defaultFg, n - 40);
      }
    }

    method SetColors(fg: Color, bg: Color)
      modifies `defaultFg, `defaultBg, `calls
      ensures Value() == Coloured(old(Value()), fg, bg)
    {
      defaultFg := fg;
      defaultBg := bg;
      calls := calls + [SetColor(fg, bg)];
    }

    method SetTtyCursor()
      modifies `calls
      ensures calls == old(calls) + [SetCursor(cursorX, cursorY)]
    {
      calls := calls + [SetCursor(cursorX, cursorY)];
    }

    /** The cursor loops towards 0. */
    static method StepBack(v: Byte, n: int) returns (r: Byte)
      ensures r == Back(v, n)
    {
      r := v;
      var i := 0;
      while i < n && 0 < r
        invariant 0 <= i && r + i == v && (i <= n || i == 0)
      {
        r := r - 1;
        i := i + 1;
      }
    }

    /** The cursor loops away from 0. */
    static method StepForward(v: Byte, n: int, size: Byte) returns (r: Byte)
      ensures r == Forward(v, n, size)
    {
      r := v;
      var i := 0;
      while i < n && r < size - 1
        invariant 0 <= i && r == v + i && (i <= n || i == 0) && (r <= size - 1 || i == 0)
      {
        r := r + 1;
        i := i + 1;
      }
    }
  }
}
