/** Control sequences on a byte stream: the parser as a machine, a tokenizer that
    reads the whole stream, and what the sequences do. The sequence format is that
    of section 5.4 of ECMA-48. */
module TerminalSpec {
  import opened Common
  import opened VgaScreen

  const ESC: char := 27 as char
  const BUFFER: nat := 32            // sizeof(escape_buffer)

  // ---- Parameters ---------------------------------------------------------

  predicate Space(c: char) { c == ' ' || 9 <= c as int <= 13 }

  predicate Digit(c: char) { '0' <= c <= '9' }

  function SkipSpaces(s: seq<char>, i: nat): (j: nat)
    requires i <= |s|
    ensures i <= j <= |s|
    decreases |s| - i
  {
    if i < |s| && Space(s[i]) then SkipSpaces(s, i + 1) else i
  }

  function SkipDigits(s: seq<char>, i: nat): (j: nat)
    requires i <= |s|
    ensures i <= j <= |s| && forall k :: i <= k < j ==> Digit(s[k])
    decreases |s| - i
  {
    if i < |s| && Digit(s[i]) then SkipDigits(s, i + 1) else i
  }

  /** The number written by the digits s[i..j]. */
  function Number(s: seq<char>, i: nat, j: nat): nat
    requires i <= j <= |s| && forall k :: i <= k < j ==> Digit(s[k])
    decreases j - i
  {
    if i == j then 0
    else
      assert Digit(s[j-1]);
      Number(s, i, j - 1) * 10 + (s[j-1] as int - '0' as int)
  }

  datatype Scan = Nothing | Found(value: int, next: nat)

  /** The %d of sscanf at position i: white space, an optional sign, digits. */
  function ScanInt(s: seq<char>, i: nat): (r: Scan)
    requires i <= |s|
    ensures r.Found? ==> i < r.next <= |s|
  {
    var j := SkipSpaces(s, i);
    var k := if j < |s| && (s[j] == '-' || s[j] == '+') then j + 1 else j;
    var e := SkipDigits(s, k);
    if e == k then Nothing
    else
      var n: int := Number(s, k, e);
      Found(if s[j] == '-' then -n else n, e)
  }

  datatype Params = Params(first: int, second: int)

  /** sscanf(s, "%d;%d", &param1, &param2) on two variables that hold 1. */
  function Scanned(s: seq<char>): Params
  {
    match ScanInt(s, 0)
    case Nothing => Params(1, 1)
    case Found(p, i) =>
      if i < |s| && s[i] == ';' then
        match ScanInt(s, i + 1)
        case Nothing => Params(p, 1)
        case Found(q, _) => Params(p, q)
      else Params(p, 1)
  }

  /** b begins with a, and a NUL follows. */
  predicate Terminated(a: seq<char>, b: seq<char>)
  {
    |a| < |b| && a == b[..|a|] && b[|a|] == NUL
  }

  lemma {:induction false} SkipsAgree(a: seq<char>, b: seq<char>, i: nat)
    requires Terminated(a, b) && i <= |a|
    ensures SkipSpaces(a, i) == SkipSpaces(b, i) && SkipDigits(a, i) == SkipDigits(b, i)
    decreases |a| - i
  {
    if i < |a| {
      assert a[i] == b[i];
      SkipsAgree(a, b, i + 1);
    }
  }

  lemma {:induction false} NumberAgrees(a: seq<char>, b: seq<char>, i: nat, j: nat)
    requires Terminated(a, b) && i <= j <= |a|
    requires forall k :: i <= k < j ==> Digit(a[k]) && Digit(b[k])
    ensures Number(a, i, j) == Number(b, i, j)
    decreases j - i
  {
    if i < j {
      assert a[j-1] == b[j-1];
      NumberAgrees(a, b, i, j - 1);
    }
  }

  lemma ScanAgrees(a: seq<char>, b: seq<char>, i: nat)
    requires Terminated(a, b) && i <= |a|
    ensures ScanInt(a, i) == ScanInt(b, i)
  {
    SkipsAgree(a, b, i);
    var j := SkipSpaces(a, i);
    assert j < |a| ==> a[j] == b[j];
    var k := if j < |a| && (a[j] == '-' || a[j] == '+') then j + 1 else j;
    SkipsAgree(a, b, k);
    NumberAgrees(a, b, k, SkipDigits(a, k));
  }

  /** The parameters are read from the bytes up to the terminating NUL. */
  lemma ScannedAgrees(a: seq<char>, b: seq<char>)
    requires Terminated(a, b)
    ensures Scanned(a) == Scanned(b)
  {
    ScanAgrees(a, b, 0);
    var r := ScanInt(a, 0);
    if r.Found? && r.next < |a| {
      assert a[r.next] == b[r.next];
      ScanAgrees(a, b, r.next + 1);
    }
  }

  // ---- Control sequences --------------------------------------------------

  /** What the terminal asks of its tty. */
  datatype Call =
    | SetCursor(x: Byte, y: Byte)
    | SetColor(fg: Color, bg: Color)
    | Clear

  datatype Term = Term(x: Byte, y: Byte, w: Byte, h: Byte, fg: Color, bg: Color, calls: seq<Call>)

  /** n steps towards 0. */
  function Back(v: Byte, n: int): Byte
  {
    if n <= 0 then v else if v <= n then 0 else v - n
  }

  /** n steps towards the last of `size` places. */
  function Forward(v: Byte, n: int, size: Byte): Byte
  {
    if n <= 0 || size - 1 <= v then v else if size - 1 <= v + n then size - 1 else v + n
  }

  function At(t: Term, x: Byte, y: Byte): Term
  {
    t.(x := x, y := y, calls := t.calls + [SetCursor(x, y)])
  }

  function Coloured(t: Term, fg: Color, bg: Color): Term
  {
    t.(fg := fg, bg := bg, calls := t.calls + [SetColor(fg, bg)])
  }

  datatype Control = None | Up | Down | Right | Left | Home | ClearScreen | ClearLine | ColorSet

  function ControlOf(letter: char): Control
  {
    match letter
    case 'A' => Up case 'B' => Down case 'C' => Right case 'D' => Left
    case 'H' => Home case 'J' => ClearScreen case 'K' => ClearLine case 'm' => ColorSet
    case _ => None
  }

  /** Runs one sequence: body is its parameter bytes and its final letter. */
  function Execute(t: Term, body: seq<char>): Term
    requires body != []
  {
    Obey(t, ControlOf(body[|body|-1]), Scanned(body))
  }

  function Obey(t: Term, c: Control, p: Params): Term
  {
    match c
    case Up => At(t, t.x, Back(t.y, p.first))
    case Down => At(t, t.x, Forward(t.y, p.first, t.h))
    case Right => At(t, Forward(t.x, p.first, t.w), t.y)
    case Left => At(t, Back(t.x, p.first), t.y)
    case Home => At(t, (p.second - 1) % 256, (p.first - 1) % 256)
    case ClearScreen => if p.first == 2 then t.(calls := t.calls + [Clear]) else t
    case ColorSet => Select(t, p.first)
    case ClearLine => t
    case None => t
  }

  function Select(t: Term, n: int): Term
  {
    if n == 0 then Coloured(t, t.fg, t.bg)
    else if 30 <= n <= 37 then Coloured(t, n - 30, t.bg)
    else if 40 <= n <= 47 then Coloured(t, t.fg, n - 40)
    else t
  }

  // ---- The parser ---------------------------------------------------------

  predicate Letter(c: char) { 'A' <= c <= 'Z' || 'a' <= c <= 'z' }

  /** Whole sequences have at least ESC, '[' and a letter. */
  predicate AllSequences(tokens: seq<seq<char>>) { forall k :: 0 <= k < |tokens| ==> 3 <= |tokens[k]| }

  /** done: the sequences handed to terminal_process_csi_sequence so far; pending:
      the bytes of the one being read, none outside a sequence. */
  datatype Machine = Machine(done: seq<seq<char>>, pending: seq<char>)

  const IDLE := Machine([], [])

  predicate InSequence(pending: seq<char>)
  {
    && (0 < |pending| ==> pending[0] == ESC)
    && (1 < |pending| ==> pending[1] == '[')
  }

  /** terminal_parse_ansi_escape. */
  function Feed(m: Machine, ch: char): (r: Machine)
    requires InSequence(m.pending)
    ensures InSequence(r.pending) && (AllSequences(m.done) ==> AllSequences(r.done))
  {
    if m.pending == [] then if ch == ESC then m.(pending := [ESC]) else m
    else if |m.pending| == 1 then m.(pending := if ch == '[' then [ESC, ch] else [])
    else if Letter(ch) then Machine(m.done + [m.pending + [ch]], [])
    else m.(pending := m.pending + [ch])
  }

  /** The next byte, and the NUL after a final letter, fit the escape buffer. */
  predicate Room(pending: seq<char>, ch: char)
  {
    |pending| + (if 2 <= |pending| && Letter(ch) then 1 else 0) < BUFFER
  }

  /** The machine after the bytes s[i..j]. */
  function Run(m: Machine, s: seq<char>, i: nat, j: nat): (r: Machine)
    requires InSequence(m.pending) && i <= j <= |s|
    ensures InSequence(r.pending)
    decreases j - i
  {
    if i == j then m else Feed(Run(m, s, i, j - 1), s[j-1])
  }

  /** Every one of these bytes finds room. */
  predicate RoomFor(m: Machine, s: seq<char>, i: nat, j: nat)
    requires InSequence(m.pending) && i <= j <= |s|
    decreases j - i
  {
    i == j || (RoomFor(m, s, i, j - 1) && Room(Run(m, s, i, j - 1).pending, s[j-1]))
  }

  lemma {:induction false} RunJoins(m: Machine, s: seq<char>, i: nat, j: nat, k: nat)
    requires InSequence(m.pending) && i <= j <= k <= |s|
    ensures Run(m, s, i, k) == Run(Run(m, s, i, j), s, j, k)
    decreases k - j
  {
    if j < k { RunJoins(m, s, i, j, k - 1); }
  }

  lemma {:induction false} RoomJoins(m: Machine, s: seq<char>, i: nat, j: nat, k: nat)
    requires InSequence(m.pending) && i <= j <= k <= |s|
    ensures Run(m, s, i, k) == Run(Run(m, s, i, j), s, j, k)
    ensures RoomFor(m, s, i, k) <==> RoomFor(m, s, i, j) && RoomFor(Run(m, s, i, j), s, j, k)
    decreases k - j
  {
    RunJoins(m, s, i, j, k);
    if j < k {
      RunJoins(m, s, i, j, k - 1);
      RoomJoins(m, s, i, j, k - 1);
    }
  }

  predicate Occurs(a: seq<char>, s: seq<char>, at: nat)
  {
    at + |a| <= |s| && forall k :: at <= k < at + |a| ==> s[k] == a[k - at]
  }

  lemma {:induction false} SameBytes(m: Machine, a: seq<char>, s: seq<char>, at: nat, n: nat)
    requires InSequence(m.pending) && n <= |a| && Occurs(a, s, at)
    ensures Run(m, a, 0, n) == Run(m, s, at, at + n)
  {
    if n > 0 {
      SameBytes(m, a, s, at, n - 1);
      assert s[at+n-1] == a[n-1];
    }
  }

  /** Running two pieces one after the other is running their concatenation. */
  lemma RunConcat(m: Machine, a: seq<char>, b: seq<char>)
    requires InSequence(m.pending)
    ensures Run(m, a + b, 0, |a + b|) == Run(Run(m, a, 0, |a|), b, 0, |b|)
  {
    assert Occurs(a, a + b, 0) && Occurs(b, a + b, |a|);
    RunPieces(m, a, b, a + b, |a|, |a + b|);
  }

  lemma {:induction false} SameRoom(m: Machine, a: seq<char>, s: seq<char>, at: nat, n: nat)
    requires InSequence(m.pending) && n <= |a| && Occurs(a, s, at)
    ensures RoomFor(m, a, 0, n) <==> RoomFor(m, s, at, at + n)
  {
    if n > 0 {
      SameRoom(m, a, s, at, n - 1);
      SameBytes(m, a, s, at, n - 1);
      assert s[at+n-1] == a[n-1];
    }
  }

  lemma RoomConcat(m: Machine, a: seq<char>, b: seq<char>)
    requires InSequence(m.pending)
    ensures RoomFor(m, a + b, 0, |a + b|) <==> RoomFor(m, a, 0, |a|) && RoomFor(Run(m, a, 0, |a|), b, 0, |b|)
  {
    assert Occurs(a, a + b, 0) && Occurs(b, a + b, |a|);
    RoomPieces(m, a, b, a + b, |a|, |a + b|);
  }

  lemma RoomPieces(m: Machine, a: seq<char>, b: seq<char>, s: seq<char>, i: nat, n: nat)
    requires InSequence(m.pending) && i == |a| && n == |s| == i + |b| && Occurs(a, s, 0) && Occurs(b, s, i)
    ensures RoomFor(m, s, 0, n) <==> RoomFor(m, a, 0, i) && RoomFor(Run(m, a, 0, i), b, 0, |b|)
  {
    RoomJoins(m, s, 0, i, n);
    SameBytes(m, a, s, 0, i);
    SameRoom(m, a, s, 0, i);
    SameRoom(Run(m, a, 0, i), b, s, i, |b|);
  }

  lemma RunPieces(m: Machine, a: seq<char>, b: seq<char>, s: seq<char>, i: nat, n: nat)
    requires InSequence(m.pending) && i == |a| && n == |s| == i + |b| && Occurs(a, s, 0) && Occurs(b, s, i)
    ensures Run(m, s, 0, n) == Run(Run(m, a, 0, i), b, 0, |b|)
  {
    RunJoins(m, s, 0, i, n);
    SameBytes(m, a, s, 0, i);
    SameBytes(Run(m, a, 0, i), b, s, i, |b|);
  }

  // ---- The tokenizer ------------------------------------------------------

  function FirstEscape(s: seq<char>, i: nat): (e: nat)
    requires i <= |s|
    ensures i <= e <= |s| && (e < |s| ==> s[e] == ESC)
    ensures forall k :: i <= k < e ==> s[k] != ESC
    decreases |s| - i
  {
    if i == |s| || s[i] == ESC then i else FirstEscape(s, i + 1)
  }

  function FirstLetter(s: seq<char>, i: nat): (e: nat)
    requires i <= |s|
    ensures i <= e <= |s| && (e < |s| ==> Letter(s[e]))
    ensures forall k :: i <= k < e ==> !Letter(s[k])
    decreases |s| - i
  {
    if i == |s| || Letter(s[i]) then i else FirstLetter(s, i + 1)
  }

  /** The control sequences from position i on: ESC, '[', anything but letters, a
      letter. ESC with any other byte is a sequence of its own, without effect. */
  function Tokens(s: seq<char>, i: nat): (r: seq<seq<char>>)
    requires i <= |s|
    ensures AllSequences(r)
    decreases |s| - i
  {
    var e := FirstEscape(s, i);
    if e + 1 >= |s| then []
    else if s[e+1] != '[' then Tokens(s, e + 2)
    else
      var j := FirstLetter(s, e + 2);
      if j == |s| then [] else [s[e..j+1]] + Tokens(s, j + 1)
  }

  /** The sequence the stream stops in the middle of. */
  function Tail(s: seq<char>, i: nat): seq<char>
    requires i <= |s|
    decreases |s| - i
  {
    var e := FirstEscape(s, i);
    if e + 1 >= |s| then s[e..]
    else if s[e+1] != '[' then Tail(s, e + 2)
    else
      var j := FirstLetter(s, e + 2);
      if j == |s| then s[e..] else Tail(s, j + 1)
  }

  // ---- The parser finds the tokens ----------------------------------------

  lemma {:induction false} TextRun(m: Machine, s: seq<char>, i: nat, j: nat)
    requires m.pending == [] && i <= j <= |s|
    requires forall k :: i <= k < j ==> s[k] != ESC
    ensures Run(m, s, i, j) == m && RoomFor(m, s, i, j)
    decreases j - i
  {
    if i < j { TextRun(m, s, i, j - 1); }
  }

  predicate Opens(s: seq<char>, e: nat)
  {
    e + 2 <= |s| && s[e] == ESC && s[e+1] == '['
  }

  /** Inside a sequence its bytes collect in the buffer, and fit as long as they
      are at most 32. */
  lemma {:induction false} SequenceRun(m: Machine, s: seq<char>, e: nat, j: nat)
    requires m.pending == [] && Opens(s, e) && e + 2 <= j <= |s|
    requires forall k :: e + 2 <= k < j ==> !Letter(s[k])
    ensures Run(m, s, e, j) == m.(pending := s[e..j])
    ensures RoomFor(m, s, e, j) <==> j - e <= BUFFER
    decreases j - e
  {
    if j == e + 2 {
      EscapeRun(m, s, e);
      assert Run(m, s, e, j) == Feed(Run(m, s, e, e + 1), s[e+1]);
      assert s[e..j] == [ESC] + ['['];
    } else {
      SequenceRun(m, s, e, j - 1);
      assert s[e..j] == s[e..j-1] + [s[j-1]];
    }
  }

  lemma EscapeRun(m: Machine, s: seq<char>, e: nat)
    requires m.pending == [] && e < |s| && s[e] == ESC
    ensures Run(m, s, e, e + 1) == m.(pending := [ESC]) && RoomFor(m, s, e, e + 1)
  {
    assert Run(m, s, e, e) == m;
  }

  /** A whole sequence is handed on and leaves the parser outside. */
  lemma TokenRun(m: Machine, s: seq<char>, e: nat, j: nat)
    requires m.pending == [] && Opens(s, e) && e + 2 <= j < |s| && Letter(s[j])
    requires forall k :: e + 2 <= k < j ==> !Letter(s[k])
    ensures Run(m, s, e, j + 1) == Machine(m.done + [s[e..j+1]], [])
    ensures RoomFor(m, s, e, j + 1) <==> |s[e..j+1]| <= BUFFER - 1
  {
    SequenceRun(m, s, e, j);
    var n := Run(m, s, e, j);
    assert s[e..j+1] == s[e..j] + [s[j]];
    assert Run(m, s, e, j + 1) == Feed(n, s[j]);
    assert RoomFor(m, s, e, j + 1) <==> RoomFor(m, s, e, j) && Room(n.pending, s[j]);
  }

  lemma SimpleRun(m: Machine, s: seq<char>, e: nat)
    requires m.pending == [] && e + 2 <= |s| && s[e] == ESC && s[e+1] != '['
    ensures Run(m, s, e, e + 2) == m && RoomFor(m, s, e, e + 2)
  {
    EscapeRun(m, s, e);
    assert Run(m, s, e, e + 2) == Feed(Run(m, s, e, e + 1), s[e+1]);
  }

  predicate Short(tokens: seq<seq<char>>, tail: seq<char>)
  {
    (forall t :: t in tokens ==> |t| <= BUFFER - 1) && |tail| <= BUFFER
  }

  /** From position i on the parser finds exactly the tokens. */
  predicate Agrees(done: seq<seq<char>>, s: seq<char>, i: nat)
    requires i <= |s|
  {
    && Run(Machine(done, []), s, i, |s|) == Machine(done + Tokens(s, i), Tail(s, i))
    && (RoomFor(Machine(done, []), s, i, |s|) <==> Short(Tokens(s, i), Tail(s, i)))
  }

  lemma LastBytes(done: seq<seq<char>>, s: seq<char>, i: nat, e: nat)
    requires i <= |s| && e == FirstEscape(s, i) && e + 1 >= |s|
    ensures Agrees(done, s, i)
  {
    var m := Machine(done, []);
    TextRun(m, s, i, e);
    assert done + [] == done;
    if e + 1 == |s| {
      RoomJoins(m, s, i, e, |s|);
      EscapeRun(m, s, e);
      assert s[e..] == [ESC];
    }
  }

  lemma AfterSimple(done: seq<seq<char>>, s: seq<char>, i: nat, e: nat)
    requires i <= |s| && e == FirstEscape(s, i) && e + 2 <= |s| && s[e+1] != '[' && Agrees(done, s, e + 2)
    ensures Agrees(done, s, i)
  {
    SimpleThen(Machine(done, []), s, i, e);
    SimpleTokens(s, i, e);
  }

  lemma SimpleTokens(s: seq<char>, i: nat, e: nat)
    requires i <= |s| && e == FirstEscape(s, i) && e + 2 <= |s| && s[e+1] != '['
    ensures Tokens(s, i) == Tokens(s, e + 2) && Tail(s, i) == Tail(s, e + 2)
  {
  }

  lemma SimpleThen(m: Machine, s: seq<char>, i: nat, e: nat)
    requires m.pending == [] && i <= |s| && e == FirstEscape(s, i) && e + 2 <= |s| && s[e+1] != '['
    ensures Run(m, s, i, |s|) == Run(m, s, e + 2, |s|)
    ensures RoomFor(m, s, i, |s|) <==> RoomFor(m, s, e + 2, |s|)
  {
    TextThen(m, s, i, e);
    SimpleRun(m, s, e);
    RoomJoins(m, s, e, e + 2, |s|);
  }

  /** Text before the first escape makes no difference. */
  lemma TextThen(m: Machine, s: seq<char>, i: nat, e: nat)
    requires m.pending == [] && i <= |s| && e == FirstEscape(s, i)
    ensures Run(m, s, i, |s|) == Run(m, s, e, |s|) && (RoomFor(m, s, i, |s|) <==> RoomFor(m, s, e, |s|))
  {
    TextRun(m, s, i, e);
    RoomJoins(m, s, i, e, |s|);
  }

  lemma UnfinishedSequence(done: seq<seq<char>>, s: seq<char>, i: nat, e: nat)
    requires i <= |s| && e == FirstEscape(s, i) && Opens(s, e) && FirstLetter(s, e + 2) == |s|
    ensures Agrees(done, s, i)
  {
    var m := Machine(done, []);
    TextRun(m, s, i, e);
    RoomJoins(m, s, i, e, |s|);
    SequenceRun(m, s, e, |s|);
    assert s[e..|s|] == s[e..] && done + [] == done;
  }

  lemma AfterSequence(done: seq<seq<char>>, s: seq<char>, i: nat, e: nat, j: nat)
    requires i <= |s| && e == FirstEscape(s, i) && Opens(s, e) && j == FirstLetter(s, e + 2) < |s|
    requires Agrees(done + [s[e..j+1]], s, j + 1)
    ensures Agrees(done, s, i)
  {
    SequenceThen(Machine(done, []), s, i, e, j);
    FirstToken(done, s, i, e, j);
  }

  lemma FirstToken(done: seq<seq<char>>, s: seq<char>, i: nat, e: nat, j: nat)
    requires i <= |s| && e == FirstEscape(s, i) && Opens(s, e) && j == FirstLetter(s, e + 2) < |s|
    ensures done + Tokens(s, i) == done + [s[e..j+1]] + Tokens(s, j + 1) && Tail(s, i) == Tail(s, j + 1)
    ensures Short(Tokens(s, i), Tail(s, i)) <==> |s[e..j+1]| <= BUFFER - 1 && Short(Tokens(s, j + 1), Tail(s, j + 1))
  {
    TokenAt(s, i, e, j);
    TailAt(s, i, e, j);
    ShortFirst(s[e..j+1], Tokens(s, j + 1), Tail(s, i));
  }

  lemma TokenAt(s: seq<char>, i: nat, e: nat, j: nat)
    requires i <= |s| && e == FirstEscape(s, i) && Opens(s, e) && j == FirstLetter(s, e + 2) < |s|
    ensures Tokens(s, i) == [s[e..j+1]] + Tokens(s, j + 1)
  {
  }

  lemma {:induction false} TailAt(s: seq<char>, i: nat, e: nat, j: nat)
    requires i <= |s| && e == FirstEscape(s, i) && Opens(s, e) && j == FirstLetter(s, e + 2) < |s|
    ensures Tail(s, i) == Tail(s, j + 1)
  {
  }

  lemma SequenceThen(m: Machine, s: seq<char>, i: nat, e: nat, j: nat)
    requires m.pending == [] && i <= |s| && e == FirstEscape(s, i) && Opens(s, e) && j == FirstLetter(s, e + 2) < |s|
    ensures var n := Machine(m.done + [s[e..j+1]], []);
      && Run(m, s, i, |s|) == Run(n, s, j + 1, |s|)
      && (RoomFor(m, s, i, |s|) <==> |s[e..j+1]| <= BUFFER - 1 && RoomFor(n, s, j + 1, |s|))
  {
    TextThen(m, s, i, e);
    TokenRun(m, s, e, j);
    RoomJoins(m, s, e, j + 1, |s|);
  }

  lemma ShortFirst(first: seq<char>, rest: seq<seq<char>>, tail: seq<char>)
    ensures Short([first] + rest, tail) <==> |first| <= BUFFER - 1 && Short(rest, tail)
  {
    assert forall k :: k in [first] + rest <==> k == first || k in rest;
  }

  /** For every stream: the parser hands on exactly the sequences the tokenizer
      finds, in order, each with its own bytes, and is left holding only the one the
      stream stops in. The escape buffer suffices exactly for streams whose
      sequences are at most 31 bytes long, 32 for one not yet finished. */
  lemma {:induction false} WholeStream(done: seq<seq<char>>, s: seq<char>, i: nat)
    requires i <= |s|
    ensures Run(Machine(done, []), s, i, |s|) == Machine(done + Tokens(s, i), Tail(s, i))
    ensures RoomFor(Machine(done, []), s, i, |s|) <==> Short(Tokens(s, i), Tail(s, i))
    decreases |s| - i
  {
    var e := FirstEscape(s, i);
    if e + 1 >= |s| {
      LastBytes(done, s, i, e);
    } else if s[e+1] != '[' {
      WholeStream(done, s, e + 2);
      AfterSimple(done, s, i, e);
    } else {
      var j := FirstLetter(s, e + 2);
      if j == |s| {
        UnfinishedSequence(done, s, i, e);
      } else {
        WholeStream(done + [s[e..j+1]], s, j + 1);
        AfterSequence(done, s, i, e, j);
      }
    }
    assert Agrees(done, s, i);
  }

  /** The sequences that fit are those of at most 31 bytes, 32 while unfinished. */
  lemma ShortExact(tokens: seq<seq<char>>, tail: seq<char>)
    ensures Short(tokens, tail) <==> (forall i :: 0 <= i < |tokens| ==> |tokens[i]| <= 31) && |tail| <= 32
  {
    assert forall i :: 0 <= i < |tokens| ==> tokens[i] in tokens;
  }

  // ---- However the stream is cut ------------------------------------------

  function Joined(writes: seq<seq<char>>): seq<char>
  {
    if writes == [] then [] else Joined(writes[..|writes|-1]) + writes[|writes|-1]
  }

  /** One terminal_write after another. */
  function RunAll(m: Machine, writes: seq<seq<char>>): (r: Machine)
    requires InSequence(m.pending)
    ensures InSequence(r.pending)
  {
    if writes == [] then m
    else
      var last := writes[|writes|-1];
      Run(RunAll(m, writes[..|writes|-1]), last, 0, |last|)
  }

  /** Each write meets terminal_write's demand on the escape buffer. */
  predicate RoomForAll(m: Machine, writes: seq<seq<char>>)
    requires InSequence(m.pending)
  {
    writes == [] ||
    var before, last := writes[..|writes|-1], writes[|writes|-1];
    RoomForAll(m, before) && RoomFor(RunAll(m, before), last, 0, |last|)
  }

  /** The cut into writes makes no difference: the sequences found are those of the
      joined stream, and the escape buffer suffices for every write exactly when
      they are short. */
  lemma CutsDoNotMatter(writes: seq<seq<char>>)
    ensures RunAll(IDLE, writes) == Machine(Tokens(Joined(writes), 0), Tail(Joined(writes), 0))
    ensures RoomForAll(IDLE, writes) <==> Short(Tokens(Joined(writes), 0), Tail(Joined(writes), 0))
  {
    CutRuns(IDLE, writes);
    CutRooms(IDLE, writes);
    WholeStream([], Joined(writes), 0);
    assert [] + Tokens(Joined(writes), 0) == Tokens(Joined(writes), 0);
  }

  lemma {:induction false} CutRooms(m: Machine, writes: seq<seq<char>>)
    requires InSequence(m.pending)
    ensures RoomForAll(m, writes) <==> RoomFor(m, Joined(writes), 0, |Joined(writes)|)
  {
    if writes != [] {
      var before := writes[..|writes|-1];
      CutRooms(m, before);
      CutRuns(m, before);
      RoomConcat(m, Joined(before), writes[|writes|-1]);
    }
  }

  lemma {:induction false} CutRuns(m: Machine, writes: seq<seq<char>>)
    requires InSequence(m.pending)
    ensures RunAll(m, writes) == Run(m, Joined(writes), 0, |Joined(writes)|)
  {
    if writes != [] {
      CutRuns(m, writes[..|writes|-1]);
      RunConcat(m, Joined(writes[..|writes|-1]), writes[|writes|-1]);
    }
  }

  // ---- Cursor and colours -------------------------------------------------

  predicate InRange(t: Term) { t.x < t.w && t.y < t.h }

  /** A position sequence outside the screen: its parameters, less 1 and modulo
      256, are not a place on it. */
  predicate OffScreen(t: Term, body: seq<char>)
    requires body != []
  {
    var p := Scanned(body);
    body[|body|-1] == 'H' && ((p.second - 1) % 256 >= t.w || (p.first - 1) % 256 >= t.h)
  }

  /** Of all sequences only such a one takes the cursor off the screen. */
  lemma CursorExact(t: Term, body: seq<char>)
    requires body != [] && InRange(t)
    ensures InRange(Execute(t, body)) <==> !OffScreen(t, body)
    ensures Execute(t, body).w == t.w && Execute(t, body).h == t.h
  {
  }

  /** ESC [ 1 0 0 ; 1 H. */
  const LINE_100: seq<char> := [ESC, '[', '1', '0', '0', ';', '1', 'H']

  /** Such a sequence, on the screen of 25 lines. */
  lemma Line100OffScreen(t: Term)
    requires t.w == WIDTH && t.h == HEIGHT
    ensures OffScreen(t, LINE_100[2..])
    ensures Execute(t, LINE_100[2..]).x == 0 && Execute(t, LINE_100[2..]).y == 99
  {
    var body := LINE_100[2..];
    assert body == ['1', '0', '0', ';', '1', 'H'];
    assert SkipSpaces(body, 0) == 0 && SkipDigits(body, 0) == 3 by {
      assert SkipDigits(body, 3) == 3 && SkipDigits(body, 2) == 3 && SkipDigits(body, 1) == 3;
    }
    assert Number(body, 0, 0) == 0 && Number(body, 0, 1) == 1 && Number(body, 0, 2) == 10 && Number(body, 0, 3) == 100;
    assert ScanInt(body, 0) == Found(100, 3);
    assert SkipSpaces(body, 4) == 4 && SkipDigits(body, 5) == 5 && SkipDigits(body, 4) == 5;
    assert Number(body, 4, 4) == 0 && Number(body, 4, 5) == 1;
    assert ScanInt(body, 4) == Found(1, 5);
  }

  /** Only these sequences do anything: a move or position (A, B, C, D, H), J with 2, and
      m with 0, 30 to 37 or 40 to 47. */
  lemma OthersDoNothing(t: Term, body: seq<char>)
    requires body != []
    requires var letter, n := body[|body|-1], Scanned(body).first;
      && letter != 'A' && letter != 'B' && letter != 'C' && letter != 'D' && letter != 'H'
      && !(letter == 'J' && n == 2) && !(letter == 'm' && (n == 0 || 30 <= n <= 37 || 40 <= n <= 47))
    ensures Execute(t, body) == t
  {
  }

  /** A sequence ends at its first letter, of either case. */
  lemma EndsAtLetter(ch: char)
    ensures var s := [ESC, '[', ch]; Tokens(s, 0) == if 'A' <= ch <= 'Z' || 'a' <= ch <= 'z' then [s] else []
  {
    var s := [ESC, '[', ch];
    assert FirstEscape(s, 0) == 0 && Tokens(s, 3) == [];
    assert FirstLetter(s, 2) == if 'A' <= ch <= 'Z' || 'a' <= ch <= 'z' then 2 else 3;
    assert s[0..3] == s;
  }

  /** Runs sequences one after the other. */
  function Perform(t: Term, tokens: seq<seq<char>>): Term
    requires AllSequences(tokens)
  {
    if tokens == [] then t
    else Execute(Perform(t, tokens[..|tokens|-1]), tokens[|tokens|-1][2..])
  }

  lemma PerformNext(t: Term, tokens: seq<seq<char>>, k: seq<char>)
    requires AllSequences(tokens) && 3 <= |k|
    ensures AllSequences(tokens + [k]) && Perform(t, tokens + [k]) == Execute(Perform(t, tokens), k[2..])
  {
    assert (tokens + [k])[..|tokens|] == tokens;
  }

  /** So over a stream without one the cursor stays on the screen. */
  lemma {:induction false} CursorStays(t: Term, tokens: seq<seq<char>>)
    requires InRange(t) && AllSequences(tokens)
    requires forall k :: 0 <= k < |tokens| ==> !OffScreen(t, tokens[k][2..])
    ensures InRange(Perform(t, tokens)) && Perform(t, tokens).w == t.w && Perform(t, tokens).h == t.h
  {
    if tokens != [] {
      CursorStays(t, tokens[..|tokens|-1]);
      CursorExact(Perform(t, tokens[..|tokens|-1]), tokens[|tokens|-1][2..]);
    }
  }

  /** The last of the sequences that picks a colour of this kind, if any. */
  function LastPick(tokens: seq<seq<char>>, first: nat, otherwise: Color): Color
    requires AllSequences(tokens)
  {
    if tokens == [] then otherwise
    else
      var k := tokens[|tokens|-1];
      var n := Scanned(k[2..]).first;
      if k[|k|-1] == 'm' && first <= n <= first + 7 then n - first
      else LastPick(tokens[..|tokens|-1], first, otherwise)
  }

  lemma PickNext(tokens: seq<seq<char>>, first: nat, otherwise: Color)
    requires AllSequences(tokens) && tokens != []
    ensures var before, k := tokens[..|tokens|-1], tokens[|tokens|-1];
      LastPick(tokens, first, otherwise) == LastPick([k], first, LastPick(before, first, otherwise))
  {
    assert [tokens[|tokens|-1]][..0] == [];
  }

  lemma PickOne(t: Term, k: seq<char>)
    requires 3 <= |k|
    ensures Execute(t, k[2..]).fg == LastPick([k], 30, t.fg) && Execute(t, k[2..]).bg == LastPick([k], 40, t.bg)
  {
    var c, p := ControlOf(k[|k|-1]), Scanned(k[2..]);
    assert Execute(t, k[2..]) == Obey(t, c, p);
    ObeyColours(t, c, p);
  }

  lemma ObeyColours(t: Term, c: Control, p: Params)
    ensures var n := p.first;
      && Obey(t, c, p).fg == (if c == ColorSet && 30 <= n <= 37 then n - 30 else t.fg)
      && Obey(t, c, p).bg == (if c == ColorSet && 40 <= n <= 47 then n - 40 else t.bg)
  {
  }

  /** The colours are those last picked, whatever came in between: `0m`, which
      should restore the defaults, changes nothing, since picking a colour
      overwrites the default. */
  lemma {:induction false} ColoursAreLastPicked(t: Term, tokens: seq<seq<char>>)
    requires AllSequences(tokens)
    ensures Perform(t, tokens).fg == LastPick(tokens, 30, t.fg)
    ensures Perform(t, tokens).bg == LastPick(tokens, 40, t.bg)
  {
    if tokens != [] {
      var before, k := tokens[..|tokens|-1], tokens[|tokens|-1];
      ColoursAreLastPicked(t, before);
      PickOne(Perform(t, before), k);
      PickNext(tokens, 30, t.fg);
      PickNext(tokens, 40, t.bg);
    }
  }

  /** ESC [ 0 m, which should restore the defaults. */
  const RESET: seq<char> := [ESC, '[', '0', 'm']

  /** It restores the initial colours exactly when the last picks before it were
      those colours. */
  lemma ResetExact(t: Term, tokens: seq<seq<char>>)
    requires AllSequences(tokens)
    ensures AllSequences(tokens + [RESET])
    ensures var u := Perform(t, tokens + [RESET]);
      u.fg == t.fg && u.bg == t.bg <==> LastPick(tokens, 30, t.fg) == t.fg && LastPick(tokens, 40, t.bg) == t.bg
  {
    ColoursAreLastPicked(t, tokens);
    PerformNext(t, tokens, RESET);
    ResetBody(Perform(t, tokens));
  }

  lemma ResetBody(t: Term)
    ensures Execute(t, RESET[2..]) == Coloured(t, t.fg, t.bg)
  {
    var body := RESET[2..];
    assert body == ['0', 'm'];
    assert SkipSpaces(body, 0) == 0 && SkipDigits(body, 1) == 1 && SkipDigits(body, 0) == 1;
    assert Number(body, 0, 0) == 0 && Number(body, 0, 1) == 0;
    assert Scanned(body) == Params(0, 1);
  }

  // The first eight colours of vga.h.
  const BLACK: Color := 0
  const BLUE: Color := 1
  const GREEN: Color := 2
  const CYAN: Color := 3
  const RED: Color := 4
  const MAGENTA: Color := 5
  const BROWN: Color := 6
  const LIGHT_GREY: Color := 7

  /** The colour that section 8.3.117 of ECMA-48 names for the parameters 30 + n and
      40 + n, in the numbers of vga.h; yellow is its brown, white its light grey. */
  function Named(n: nat): Color
    requires n < 8
  {
    match n
    case 0 => BLACK case 1 => RED case 2 => GREEN case 3 => BROWN
    case 4 => BLUE case 5 => MAGENTA case 6 => CYAN case _ => LIGHT_GREY
  }

  /** Colours whose red and blue parts are equal. */
  predicate RedIsBlue(n: nat) { n == 0 || n == 2 || n == 5 || n == 7 }

  /** The last number, less `first`, that picks a colour of this kind; -1 if none. */
  function LastNumber(tokens: seq<seq<char>>, first: nat): (n: int)
    requires AllSequences(tokens)
    ensures -1 <= n < 8
  {
    if tokens == [] then -1
    else
      var k := tokens[|tokens|-1];
      var n := Scanned(k[2..]).first;
      if k[|k|-1] == 'm' && first <= n <= first + 7 then n - first
      else LastNumber(tokens[..|tokens|-1], first)
  }

  lemma {:induction false} PickIsNumber(tokens: seq<seq<char>>, first: nat, otherwise: Color)
    requires AllSequences(tokens)
    ensures LastPick(tokens, first, otherwise) == var n := LastNumber(tokens, first); if n < 0 then otherwise else n
  {
    if tokens != [] { PickIsNumber(tokens[..|tokens|-1], first, otherwise); }
  }

  /** After any sequences that pick a colour, it is the one the standard names if and
      only if the last pick is black, green, magenta or white: vga.h has red and blue
      the other way round. */
  lemma {:induction false} NamedColourExact(t: Term, tokens: seq<seq<char>>)
    requires AllSequences(tokens)
    ensures var n := LastNumber(tokens, 30); 0 <= n ==> (Perform(t, tokens).fg == Named(n) <==> RedIsBlue(n))
    ensures var n := LastNumber(tokens, 40); 0 <= n ==> (Perform(t, tokens).bg == Named(n) <==> RedIsBlue(n))
  {
    ColoursAreLastPicked(t, tokens);
    PickIsNumber(tokens, 30, t.fg);
    PickIsNumber(tokens, 40, t.bg);
  }

  /** ESC [ 3 1 m, which names red. */
  const PICK_RED: seq<char> := [ESC, '[', '3', '1', 'm']

  lemma PickRedBody(t: Term)
    ensures Scanned(PICK_RED[2..]) == Params(31, 1) && Execute(t, PICK_RED[2..]) == Coloured(t, BLUE, t.bg)
  {
    var body := PICK_RED[2..];
    assert body == ['3', '1', 'm'];
    assert SkipSpaces(body, 0) == 0 && SkipDigits(body, 2) == 2 && SkipDigits(body, 1) == 2 && SkipDigits(body, 0) == 2;
    assert Number(body, 0, 0) == 0 && Number(body, 0, 1) == 3 && Number(body, 0, 2) == 31;
    assert Scanned(body) == Params(31, 1);
  }

  /** The stream ESC [ 31 m shows blue where red is named. */
  lemma PickRedShowsBlue(t: Term)
    ensures Tokens(PICK_RED, 0) == [PICK_RED] && LastNumber([PICK_RED], 30) == 1 && Named(1) == RED
    ensures Perform(t, [PICK_RED]).fg == BLUE
  {
    var s := PICK_RED;
    assert FirstEscape(s, 0) == 0 && FirstLetter(s, 2) == 4 by {
      assert FirstLetter(s, 4) == 4 && FirstLetter(s, 3) == 4;
    }
    assert FirstEscape(s, 5) == 5 && s[0..5] == s && Tokens(s, 5) == [];
    PickRedBody(t);
    assert [PICK_RED][..0] == [];
  }

  /** The stream ESC [ 31 m ESC [ 0 m leaves the foreground at what the pick made it. */
  lemma ResetKeepsPick(t: Term)
    ensures Tokens(PICK_RED + RESET, 0) == [PICK_RED, RESET]
    ensures Perform(t, [PICK_RED, RESET]).fg == BLUE
  {
    PickThenReset();
    assert [PICK_RED, RESET][..1] == [PICK_RED] && [PICK_RED][..0] == [];
    PickRedBody(t);
    ResetBody(Coloured(t, BLUE, t.bg));
    assert Perform(t, [PICK_RED]) == Execute(t, PICK_RED[2..]);
  }

  lemma PickThenReset()
    ensures Tokens(PICK_RED + RESET, 0) == [PICK_RED, RESET]
  {
    var s := PICK_RED + RESET;
    assert FirstEscape(s, 0) == 0 && FirstLetter(s, 2) == 4 by {
      assert FirstLetter(s, 4) == 4 && FirstLetter(s, 3) == 4;
    }
    assert FirstEscape(s, 5) == 5 && FirstLetter(s, 7) == 8 by { assert FirstLetter(s, 8) == 8; }
    assert FirstEscape(s, 9) == 9;
    assert s[0..5] == PICK_RED && s[5..9] == RESET;
    assert Tokens(s, 9) == [];
    assert Tokens(s, 5) == [RESET];
  }

  // ---- The tty's cursor ---------------------------------------------------

  datatype Place = Place(x: nat, y: nat)

  /** Where the requests so far have put the cursor of the tty on the screen: a
      clear takes it home. */
  function CursorAsked(calls: seq<Call>, start: Place): Place
  {
    if calls == [] then start
    else
      match calls[|calls|-1]
      case SetCursor(x, y) => Place(x, y)
      case Clear => Place(0, 0)
      case SetColor(_, _) => CursorAsked(calls[..|calls|-1], start)
  }

  predicate InAgreement(t: Term, start: Place) { CursorAsked(t.calls, start) == Place(t.x, t.y) }

  predicate Moves(c: Control) { c == Up || c == Down || c == Right || c == Left || c == Home }

  predicate Clears(body: seq<char>)
    requires body != []
  {
    ControlOf(body[|body|-1]) == ClearScreen && Scanned(body).first == 2
  }

  /** A move brings the two cursors together, a clear does so only at home, and
      nothing else matters. */
  predicate NextAgreement(t: Term, u: Term, start: Place, move: bool, clear: bool)
  {
    && (move ==> InAgreement(u, start))
    && (!move ==> u.x == t.x && u.y == t.y)
    && (!move && clear ==> (InAgreement(u, start) <==> u.x == 0 && u.y == 0))
    && (!move && !clear ==> (InAgreement(u, start) <==> InAgreement(t, start)))
  }

  lemma AgreementStep(t: Term, start: Place, body: seq<char>)
    requires body != []
    ensures NextAgreement(t, Execute(t, body), start, Moves(ControlOf(body[|body|-1])), Clears(body))
  {
    var calls := Execute(t, body).calls;
    if calls != t.calls { AskedStep(t.calls, calls[|t.calls|], start); }
  }

  lemma AskedStep(calls: seq<Call>, c: Call, start: Place)
    ensures CursorAsked(calls + [c], start) ==
      match c { case SetCursor(x, y) => Place(x, y) case Clear => Place(0, 0) case SetColor(_, _) => CursorAsked(calls, start) }
  {
    assert (calls + [c])[..|calls|] == calls;
  }

  /** Of the sequences that move or clear, the last one is a clear. */
  predicate EndsCleared(tokens: seq<seq<char>>)
    requires AllSequences(tokens)
  {
    tokens != [] &&
    var body := tokens[|tokens|-1][2..];
    if Moves(ControlOf(body[|body|-1])) then false
    else Clears(body) || EndsCleared(tokens[..|tokens|-1])
  }

  lemma LastCleared(tokens: seq<seq<char>>)
    requires AllSequences(tokens) && tokens != []
    ensures var before, body := tokens[..|tokens|-1], tokens[|tokens|-1][2..];
      EndsCleared(tokens) == (!Moves(ControlOf(body[|body|-1])) && (Clears(body) || EndsCleared(before)))
  {
  }

  /** The index of that clear. */
  function LastClear(tokens: seq<seq<char>>): (i: nat)
    requires AllSequences(tokens) && EndsCleared(tokens)
    ensures i < |tokens| && Clears(tokens[i][2..])
  {
    if Clears(tokens[|tokens|-1][2..]) then |tokens| - 1 else LastClear(tokens[..|tokens|-1])
  }

  /** Nothing has moved the terminal's cursor since. */
  lemma {:induction false} PlaceAtClear(t: Term, tokens: seq<seq<char>>)
    requires AllSequences(tokens) && EndsCleared(tokens)
    ensures var u, w := Perform(t, tokens), Perform(t, tokens[..LastClear(tokens)]); u.x == w.x && u.y == w.y
  {
    var before, body := tokens[..|tokens|-1], tokens[|tokens|-1][2..];
    LastCleared(tokens);
    StaysPut(Perform(t, before), body);
    if !Clears(body) {
      PlaceAtClear(t, before);
      assert before[..LastClear(before)] == tokens[..LastClear(tokens)];
    }
  }

  lemma StaysPut(t: Term, body: seq<char>)
    requires body != [] && !Moves(ControlOf(body[|body|-1]))
    ensures Execute(t, body).x == t.x && Execute(t, body).y == t.y
  {
  }

  predicate AtHome(t: Term) { t.x == 0 && t.y == 0 }

  /** ESC [ 2 J takes the tty's cursor home but not the terminal's: after any
      sequences the two agree exactly when a move came after the last clear, or the
      terminal's cursor was at home before that clear. */
  lemma AgreementExact(t: Term, start: Place, tokens: seq<seq<char>>)
    requires AllSequences(tokens) && InAgreement(t, start)
    ensures InAgreement(Perform(t, tokens), start) <==>
      !EndsCleared(tokens) || AtHome(Perform(t, tokens[..LastClear(tokens)]))
  {
    AgreementAtEnd(t, start, tokens);
    if EndsCleared(tokens) { PlaceAtClear(t, tokens); }
  }

  lemma {:induction false} AgreementAtEnd(t: Term, start: Place, tokens: seq<seq<char>>)
    requires AllSequences(tokens) && InAgreement(t, start)
    ensures InAgreement(Perform(t, tokens), start) <==> !EndsCleared(tokens) || AtHome(Perform(t, tokens))
    decreases |tokens|
  {
    if tokens != [] {
      var before, body := tokens[..|tokens|-1], tokens[|tokens|-1][2..];
      AgreementAtEnd(t, start, before);
      AgreementStep(Perform(t, before), start, body);
      LastCleared(tokens);
    }
  }

  /** ESC [ 5 C and ESC [ 2 J. */
  const RIGHT_5: seq<char> := [ESC, '[', '5', 'C']
  const CLEAR_ALL: seq<char> := [ESC, '[', '2', 'J']

  lemma OneDigitBody(k: seq<char>)
    requires |k| == 4 && Digit(k[2]) && !Digit(k[3]) && k[3] != ';'
    ensures Scanned(k[2..]) == Params(k[2] as int - '0' as int, 1)
  {
    var body := k[2..];
    assert SkipSpaces(body, 0) == 0 && SkipDigits(body, 1) == 1 && SkipDigits(body, 0) == 1;
    assert Number(body, 0, 0) == 0 && Number(body, 0, 1) == k[2] as int - '0' as int;
  }

  /** Five steps right and a clear, from the top left: the terminal's cursor is in
      column 5, the tty's at home. */
  lemma ClearDisagrees(t: Term, start: Place)
    requires AtHome(t) && t.w == WIDTH
    ensures var u := Perform(t, [RIGHT_5, CLEAR_ALL]);
      u.x == 5 && u.y == 0 && CursorAsked(u.calls, start) == Place(0, 0)
  {
    OneDigitBody(RIGHT_5);
    OneDigitBody(CLEAR_ALL);
    var tokens := [RIGHT_5, CLEAR_ALL];
    assert tokens[..1] == [RIGHT_5] && [RIGHT_5][..0] == [];
    var moved := Execute(t, RIGHT_5[2..]);
    assert moved == At(t, 5, 0);
    assert Perform(t, [RIGHT_5]) == moved;
    AskedStep(moved.calls, Clear, start);
  }
}
