/** The tty driver: devices in the static manager, updated in place. A device that
    is not READY answers -1; the lifecycle that makes one READY is outside this
    model. */
module Tty {
  import opened Common
  import opened VgaScreen
  import opened TtySpec
  import R = Ring
  import D = VgaDriver

  datatype State = Closed | Opened | Ready | Failed

  class TtyManager {
    var currentTty: int
    const vga: D.Vga

    constructor (screen: D.Vga)
      ensures currentTty == 0 && vga == screen
    {
      currentTty := 0;
      vga := screen;
    }
  }

  /** A character that makes the line discipline write others first. */
  predicate Compound(ch: char) { ch == '\n' || ch == '\t' }

  predicate HasCompound(data: seq<char>) { exists i :: 0 <= i < |data| && Compound(data[i]) }

  class TtyDevice {
    const minor: int
    const manager: TtyManager
    var state: State
    var mode: Mode
    var config: Config
    var fg: Color
    var bg: Color
    var cx: nat
    var cy: nat

    const inputBuffer: array<char>
    var inputHead: nat
    var inputTail: nat
    var inputCount: nat
    const lineBuffer: array<char>
    var linePos: nat
    var lineCount: nat

    var bytesRead: Word
    var bytesWritten: nat
    var linesProcessed: nat
    var charactersProcessed: nat

    ghost var sent: seq<char>

    ghost predicate Valid()
      reads this, manager, manager.vga, manager.vga.buffer, inputBuffer, lineBuffer
    {
      && InputOk() && manager.vga.Valid()
    }

    ghost predicate InputOk()
      reads this, inputBuffer, lineBuffer
    {
      && inputBuffer != lineBuffer && inputBuffer.Length == RING && lineBuffer.Length == LINE
      && R.RingOk(RING, inputHead, inputTail, inputCount)
      && linePos == lineCount < LINE
    }

    /** The output side as a value. */
    ghost function Output(): Out
      reads this, manager, manager.vga, manager.vga.buffer
    {
      Out(mode, config, minor == manager.currentTty, fg, bg, cx, cy, manager.vga.Value(), sent, bytesWritten)
    }

    /** The input side as a value. */
    ghost function Input(): Editor
      requires InputOk()
      reads this, inputBuffer, lineBuffer
    {
      Editor(lineBuffer[..lineCount], R.Contents(inputBuffer[..], inputHead, inputCount))
    }

    // tty_register, for a device that has been made ready
    constructor (number: int, m: TtyManager)
      requires m.vga.Valid()
      ensures Valid() && fresh(inputBuffer) && fresh(lineBuffer)
      ensures minor == number && manager == m && state == Ready && mode == Cooked && config == Config(true, true, true)
      ensures Input() == FRESH && fg == 7 && bg == 0 && cx == cy == 0 && bytesRead == bytesWritten == 0
    {
      minor, manager := number, m;
      state, mode, config := Ready, Cooked, Config(true, true, true);
      fg, bg, cx, cy := 7, 0, 0, 0;
      inputBuffer := new char[RING](_ => 0 as char);
      lineBuffer := new char[LINE](_ => 0 as char);
      inputHead, inputTail, inputCount, linePos, lineCount := 0, 0, 0, 0, 0;
      bytesRead, bytesWritten, linesProcessed, charactersProcessed := 0, 0, 0, 0;
      sent := [];
    }

    // ---- Output -----------------------------------------------------------

    /** Output to VGA, if this is the current tty. */
    method ToVga(ch: char)
      requires manager.vga.Valid() && (minor == manager.currentTty ==> CanPut(manager.vga.Value(), ch))
      modifies `cx, `cy, `sent, manager.vga, manager.vga.buffer
      ensures manager.vga.Valid() && Output() == ToScreen(old(Output()), ch)
    {
      if minor == manager.currentTty {
        manager.vga.SetColors(fg, bg);
        manager.vga.PutChar(ch);
        sent := sent + [ch];
        cx, cy := manager.vga.x, manager.vga.y;
      }
    }

    method Write(data: seq<char>) returns (n: int)
      requires manager.vga.Valid() && CanWrite(Output(), data)
      modifies `bytesWritten, `cx, `cy, `sent, manager.vga, manager.vga.buffer
      ensures manager.vga.Valid()
      ensures state == Ready && data != [] ==> n == |data| && Output() == TtySpec.Write(old(Output()), data)
      ensures state != Ready || data == [] ==> n == -1 && Output() == old(Output())
      decreases if HasCompound(data) then 1 else 0, 4
    {
      if data == [] {
        return -1;
      }
      if state != Ready {
        return -1;
      }
      n := 0;
      for i := 0 to |data|
        invariant manager.vga.Valid() && n == i
        invariant CanWrite(Output(), data[i..])
        invariant TtySpec.Write(Output(), data[i..]) == TtySpec.Write(old(Output()), data)
      {
        WriteNext(Output(), data, i);
        var status := WriteOne(data[i]);
        if status == 0 {
          n := n + 1;
        } else {
          break;
        }
      }
    }

    /** One character of tty_write, and its count. */
    method WriteOne(ch: char) returns (status: int)
      requires state == Ready && manager.vga.Valid() && CanEmit(Output(), ch)
      modifies `bytesWritten, `cx, `cy, `sent, manager.vga, manager.vga.buffer
      ensures manager.vga.Valid() && status == 0 && Output() == EmitOne(old(Output()), ch)
      decreases if Compound(ch) then 1 else 0, 3
    {
      status := ProcessOutput(ch);
      if status == 0 {
        bytesWritten := Wrap(bytesWritten + 1);
      }
    }

    method PutChar(ch: char) returns (n: int)
      requires manager.vga.Valid() && CanEmit(Output(), ch)
      modifies `bytesWritten, `cx, `cy, `sent, manager.vga, manager.vga.buffer
      ensures manager.vga.Valid()
      ensures state == Ready ==> n == 1 && Output() == EmitOne(old(Output()), ch)
      ensures state != Ready ==> n == -1 && Output() == old(Output())
      decreases if Compound(ch) then 1 else 0, 5
    {
      assert [ch][1..] == [];
      assert TtySpec.Write(Output(), [ch]) == EmitOne(Output(), ch);
      n := Write([ch]);
    }

    method ProcessOutput(ch: char) returns (status: int)
      requires state == Ready && manager.vga.Valid() && CanEmit(Output(), ch)
      modifies `bytesWritten, `cx, `cy, `sent, manager.vga, manager.vga.buffer
      ensures manager.vga.Valid() && status == 0 && Output() == Emit(old(Output()), ch)
      decreases if Compound(ch) then 1 else 0, 2
    {
      if mode == Cooked {
        status := LineOutput(ch);
      } else {
        ToVga(ch);
        status := 0;
      }
    }

    /** tty_line_discipline_output. */
    method LineOutput(ch: char) returns (status: int)
      requires state == Ready && mode == Cooked && manager.vga.Valid() && CanEmit(Output(), ch)
      modifies `bytesWritten, `cx, `cy, `sent, manager.vga, manager.vga.buffer
      ensures manager.vga.Valid() && status == 0 && Output() == Emit(old(Output()), ch)
      decreases if Compound(ch) then 1 else 0, 1
    {
      if config.crlf && ch == '\n' {
        var _ := PutChar('\r');
      }
      if config.tabExpand && ch == '\t' {
        ExpandTab();
        return 0;
      }
      ToVga(ch);
      status := 0;
    }

    method ExpandTab()
      requires state == Ready && manager.vga.Valid()
      modifies `bytesWritten, `cx, `cy, `sent, manager.vga, manager.vga.buffer
      ensures manager.vga.Valid() && Output() == PutSpaceTimes(old(Output()), 8 - old(cx) % 8)
      decreases 1, 0
    {
      ghost var o := Output();
      var spaces := 8 - cx % 8;
      for i := 0 to spaces
        invariant manager.vga.Valid() && Output() == PutSpaceTimes(o, i)
      {
        SpaceIsPlain(Output());
        var _ := PutChar(' ');
      }
    }

    // ---- Input ------------------------------------------------------------

    /** tty_buffer_putchar on the input ring. */
    method BufferPutChar(ch: char) returns (status: int)
      requires InputOk()
      modifies `inputTail, `inputCount, inputBuffer
      ensures InputOk()
      ensures Input() == old(Input()).(queue := old(Input()).queue + Fit(old(Input()).queue, [ch]))
      ensures status == if old(inputCount) < RING then 0 else -1
    {
      if inputCount >= RING {
        assert Input().queue + [] == Input().queue;
        return -1;
      }
      ghost var b := inputBuffer[..];
      R.PutBack(b, inputHead, inputTail, inputCount, ch);
      inputBuffer[inputTail] := ch;
      assert inputBuffer[..] == b[inputTail := ch];
      inputTail := (inputTail + 1) % RING;
      inputCount := inputCount + 1;
      status := 0;
    }

    /** Moves the line and a newline to the input ring. */
    method Commit()
      requires InputOk()
      modifies `inputTail, `inputCount, `lineCount, `linePos, `linesProcessed, inputBuffer
      ensures InputOk()
      ensures Input() == Type(old(Input()), '\n')
      ensures linesProcessed == Wrap(old(linesProcessed) + 1)
    {
      ghost var queue, line := Input().queue, Input().line;
      ghost var all := line + ['\n'];
      for i := 0 to lineCount
        invariant InputOk() && lineBuffer[..lineCount] == line
        invariant Input() == Editor(line, queue + Fit(queue, all[..i]))
        invariant linesProcessed == old(linesProcessed)
      {
        FitOneMore(queue, all, i);
        var _ := BufferPutChar(lineBuffer[i]);
      }
      FitOneMore(queue, all, |line|);
      assert all[..|all|] == all;
      var _ := BufferPutChar('\n');
      lineCount := 0;
      linePos := 0;
      linesProcessed := Wrap(linesProcessed + 1);
    }

    /** tty_line_discipline_input. */
    method LineInput(ch: char) returns (status: int)
      requires Valid() && state == Ready && CanEcho(Output(), Input().line, ch)
      modifies `inputTail, `inputCount, `lineCount, `linePos, `linesProcessed, `charactersProcessed, inputBuffer, lineBuffer
      modifies `bytesWritten, `cx, `cy, `sent, manager.vga, manager.vga.buffer
      ensures Valid() && status == 0
      ensures Input() == Type(old(Input()), ch)
      ensures Output() == Echo(old(Output()), old(Input()).line, ch)
      ensures charactersProcessed == Wrap(old(charactersProcessed) + 1)
      ensures linesProcessed == if ch == '\n' || ch == '\r' then Wrap(old(linesProcessed) + 1) else old(linesProcessed)
    {
      if ch == '\n' || ch == '\r' {
        ReturnKey(ch);
      } else if ch == BS {
        EraseKey();
      } else {
        StoreKey(ch);
      }
      charactersProcessed := Wrap(charactersProcessed + 1);
      status := 0;
    }

    method ReturnKey(ch: char)
      requires Valid() && state == Ready && (ch == '\n' || ch == '\r')
      modifies `inputTail, `inputCount, `lineCount, `linePos, `linesProcessed, inputBuffer, lineBuffer
      modifies `bytesWritten, `cx, `cy, `sent, manager.vga, manager.vga.buffer
      ensures Valid()
      ensures Input() == Type(old(Input()), ch) && Output() == Echo(old(Output()), old(Input()).line, ch)
      ensures linesProcessed == Wrap(old(linesProcessed) + 1)
    {
      EchoReturn();
      Commit();
    }

    method EraseKey()
      requires Valid() && state == Ready
      modifies `lineCount, `linePos
      modifies `bytesWritten, `cx, `cy, `sent, manager.vga, manager.vga.buffer
      ensures Valid()
      ensures Input() == Type(old(Input()), BS) && Output() == Echo(old(Output()), old(Input()).line, BS)
    {
      if linePos > 0 {
        DropLast();
        EchoErase();
      }
    }

    method DropLast()
      requires InputOk() && linePos > 0
      modifies `lineCount, `linePos
      ensures InputOk() && Input() == old(Input()).(line := old(Input()).line[..old(lineCount)-1])
    {
      linePos := linePos - 1;
      lineCount := lineCount - 1;
    }

    method StoreKey(ch: char)
      requires Valid() && state == Ready && ch != '\n' && ch != '\r' && ch != BS
      requires CanEcho(Output(), Input().line, ch)
      modifies `lineCount, `linePos, lineBuffer
      modifies `bytesWritten, `cx, `cy, `sent, manager.vga, manager.vga.buffer
      ensures Valid()
      ensures Input() == Type(old(Input()), ch) && Output() == Echo(old(Output()), old(Input()).line, ch)
    {
      if lineCount < LINE - 1 {
        Append(ch);
        EchoChar(ch);
      }
    }

    method EchoReturn()
      requires manager.vga.Valid() && state == Ready
      modifies `bytesWritten, `cx, `cy, `sent, manager.vga, manager.vga.buffer
      ensures manager.vga.Valid()
      ensures Output() == if config.echo then EmitOne(EmitOne(old(Output()), '\r'), '\n') else old(Output())
    {
      if config.echo {
        var _ := PutChar('\r');
        var _ := PutChar('\n');
      }
    }

    method EchoErase()
      requires manager.vga.Valid() && state == Ready
      modifies `bytesWritten, `cx, `cy, `sent, manager.vga, manager.vga.buffer
      ensures manager.vga.Valid()
      ensures Output() == if config.echo then EmitOne(EmitOne(EmitOne(old(Output()), BS), ' '), BS) else old(Output())
    {
      if config.echo {
        var _ := PutChar(BS);
        var _ := PutChar(' ');
        var _ := PutChar(BS);
      }
    }

    method EchoChar(ch: char)
      requires manager.vga.Valid() && state == Ready && (config.echo ==> CanEmit(Output(), ch))
      modifies `bytesWritten, `cx, `cy, `sent, manager.vga, manager.vga.buffer
      ensures manager.vga.Valid()
      ensures Output() == if config.echo then EmitOne(old(Output()), ch) else old(Output())
    {
      if config.echo {
        var _ := PutChar(ch);
      }
    }

    method Append(ch: char)
      requires InputOk() && lineCount < LINE - 1
      modifies `lineCount, `linePos, lineBuffer
      ensures InputOk() && Input() == old(Input()).(line := old(Input()).line + [ch])
    {
      ghost var line := lineBuffer[..lineCount];
      lineBuffer[linePos] := ch;
      assert lineBuffer[..lineCount+1] == line + [ch];
      linePos := linePos + 1;
      lineCount := lineCount + 1;
    }

    /** tty_input_char. */
    method InputChar(ch: char) returns (status: int)
      requires Valid() && (mode == Cooked ==> CanEcho(Output(), Input().line, ch))
      modifies `inputTail, `inputCount, `lineCount, `linePos, `linesProcessed, `charactersProcessed, inputBuffer, lineBuffer
      modifies `bytesWritten, `cx, `cy, `sent, manager.vga, manager.vga.buffer
      ensures Valid()
      ensures state != Ready ==> status == -1 && Input() == old(Input()) && Output() == old(Output())
      ensures state == Ready && mode == Cooked ==>
        && status == 0 && Input() == Step(old(Input()), Key(ch))
        && Output() == Echo(old(Output()), old(Input()).line, ch)
      ensures state == Ready && mode == Raw ==>
        && status == (if |old(Input()).queue| < RING then 0 else -1)
        && Input() == old(Input()).(queue := old(Input()).queue + Fit(old(Input()).queue, [ch]))
        && Output() == old(Output())
    {
      if state != Ready {
        return -1;
      }
      if mode == Cooked {
        status := LineInput(ch);
      } else {
        status := BufferPutChar(ch);
      }
    }

    /** tty_keyboard_handler, for the device on the screen: presses that stand for a
        character are typed, everything else is ignored. */
    method KeyboardHandler(pressed: bool, ascii: char)
      requires Valid() && (mode == Cooked ==> CanEcho(Output(), Input().line, ascii))
      modifies `inputTail, `inputCount, `lineCount, `linePos, `linesProcessed, `charactersProcessed, inputBuffer, lineBuffer
      modifies `bytesWritten, `cx, `cy, `sent, manager.vga, manager.vga.buffer
      ensures Valid()
      ensures !pressed || ascii == 0 as char || state != Ready ==> Input() == old(Input()) && Output() == old(Output())
      ensures pressed && ascii != 0 as char && state == Ready && mode == Cooked ==>
        && Input() == Step(old(Input()), Key(ascii))
        && Output() == Echo(old(Output()), old(Input()).line, ascii)
      ensures pressed && ascii != 0 as char && state == Ready && mode == Raw ==>
        && Input() == old(Input()).(queue := old(Input()).queue + Fit(old(Input()).queue, [ascii]))
        && Output() == old(Output())
    {
      if pressed && ascii != 0 as char {
        var _ := InputChar(ascii);
      }
    }

    /** tty_read: at most `size` bytes, without waiting. */
    method Read(size: nat) returns (n: int, data: seq<char>)
      requires Valid()
      modifies `inputHead, `inputCount, `bytesRead
      ensures Valid()
      ensures state != Ready || size == 0 ==> n == -1 && data == [] && Input() == old(Input())
      ensures state == Ready && 0 < size ==>
        && n == |data| && data == Taken(old(Input()), TtySpec.Read(size))
        && Input() == Step(old(Input()), TtySpec.Read(size))
      ensures CountedOn(old(bytesRead), bytesRead, |data|)
    {
      data := [];
      if size == 0 || state != Ready {
        return -1, [];
      }
      ghost var e := Input();
      while |data| < size
        invariant InputOk() && |data| <= size && |data| <= |e.queue|
        invariant data == e.queue[..|data|] && Input() == e.(queue := e.queue[|data|..])
        invariant CountedOn(old(bytesRead), bytesRead, |data|)
      {
        if inputCount > 0 {
          assert e.queue[|data|..][0] == e.queue[|data|] && e.queue[|data|..][1..] == e.queue[|data|+1..];
          var ch := TakeChar();
          CountsJoin(old(bytesRead), bytesRead, Wrap(bytesRead + 1), |data|, 1);
          data := data + [ch];
          bytesRead := Wrap(bytesRead + 1);
        } else {
          break;
        }
      }
      n := |data|;
    }

    /** The first character of the input ring. */
    method TakeChar() returns (ch: char)
      requires InputOk() && 0 < inputCount
      modifies `inputHead, `inputCount
      ensures InputOk() && old(Input()).queue != [] && ch == old(Input()).queue[0]
      ensures Input() == old(Input()).(queue := old(Input()).queue[1..])
    {
      R.TakeFront(inputBuffer[..], inputHead, inputTail, inputCount);
      ch := inputBuffer[inputHead];
      inputHead := (inputHead + 1) % RING;
      inputCount := inputCount - 1;
    }

    /** tty_flush_input. */
    method FlushInput() returns (status: int)
      requires Valid()
      modifies `inputHead, `inputTail, `inputCount, `linePos, `lineCount
      ensures Valid()
      ensures state == Closed ==> status == -1 && Input() == old(Input())
      ensures state != Closed ==> status == 0 && Input() == Step(old(Input()), Flush)
    {
      if state == Closed {
        return -1;
      }
      inputHead, inputTail, inputCount := 0, 0, 0;
      linePos, lineCount := 0, 0;
      status := 0;
    }
  }
}
