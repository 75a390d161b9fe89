/** What vsnprintf would write into an unbounded buffer, as a function, and the
    numbers read back from it. */
module FormatSpec {
  import opened Common
  import opened TerminalSpec

  type Int32 = n: int | -0x8000_0000 <= n < 0x8000_0000

  datatype Arg =
    | Int(n: Int32)
    | Unsigned(u: Word)
    | Str(s: seq<char>)

  predicate NoNul(s: seq<char>) { forall i :: 0 <= i < |s| ==> s[i] != NUL }

  // ---- Numbers ------------------------------------------------------------

  function Base(hex: bool): nat { if hex then 16 else 10 }

  /** v with a zero appended. */
  function Shift(v: nat, hex: bool): nat { if hex then v * 16 else v * 10 }

  function Quotient(n: nat, hex: bool): (q: nat)
    ensures Base(hex) <= n ==> 0 < q < n
    ensures n == 0 || q < n
  {
    if hex then n / 16 else n / 10
  }

  function Last(n: nat, hex: bool): (d: nat)
    ensures d < Base(hex) && n == Shift(Quotient(n, hex), hex) + d
  {
    if hex then n % 16 else n % 10
  }

  function DigitChar(d: nat): char
    requires d < 16
  {
    if d < 10 then '0' + d as char else 'a' + (d - 10) as char
  }

  /** The digits of n, most significant first. */
  function Digits(n: nat, hex: bool): (r: seq<char>)
    ensures r != [] && NoNul(r)
  {
    (if n < Base(hex) then [] else Digits(Quotient(n, hex), hex)) + [DigitChar(Last(n, hex))]
  }

  function Decimal(n: int): (r: seq<char>)
    ensures NoNul(r)
  {
    if n < 0 then ['-'] + Digits(-n, false) else Digits(n, false)
  }

  function Power(hex: bool, k: nat): nat
  {
    if k == 0 then 1 else Shift(Power(hex, k - 1), hex)
  }

  lemma {:induction false} DigitsFit(n: nat, hex: bool, k: nat)
    requires 0 < k && n < Power(hex, k)
    ensures |Digits(n, hex)| <= k
  {
    if Base(hex) <= n {
      assert Quotient(n, hex) < Power(hex, k - 1);
      DigitsFit(Quotient(n, hex), hex, k - 1);
    }
  }

  /** A 32-bit number has at most ten digits. */
  lemma WordFits(n: Word, hex: bool)
    ensures |Digits(n, hex)| <= 10
  {
    assert Power(false, 10) == 10000000000 && Power(true, 8) == 0x1_0000_0000;
    if hex { DigitsFit(n, hex, 8); } else { DigitsFit(n, hex, 10); }
  }

  // ---- Reading numbers back -----------------------------------------------

  predicate DigitOf(c: char, hex: bool) { '0' <= c <= '9' || (hex && 'a' <= c <= 'f') }

  function Worth(c: char): int { if c <= '9' then c as int - '0' as int else c as int - 'a' as int + 10 }

  predicate IsNumber(s: seq<char>, hex: bool) { forall i :: 0 <= i < |s| ==> DigitOf(s[i], hex) }

  /** The number a row of digits stands for. */
  function Value(s: seq<char>, hex: bool): nat
    requires IsNumber(s, hex)
  {
    if s == [] then 0
    else
      assert DigitOf(s[|s|-1], hex);
      Shift(Value(s[..|s|-1], hex), hex) + Worth(s[|s|-1])
  }

  lemma DigitWorth(d: nat, hex: bool)
    requires d < Base(hex)
    ensures DigitOf(DigitChar(d), hex) && Worth(DigitChar(d)) == d
    ensures DigitChar(d) == '0' <==> d == 0
  {
  }

  lemma OneMoreDigit(s: seq<char>, c: char, hex: bool)
    requires IsNumber(s, hex) && DigitOf(c, hex)
    ensures IsNumber(s + [c], hex) && Value(s + [c], hex) == Shift(Value(s, hex), hex) + Worth(c)
  {
    assert (s + [c])[..|s|] == s;
  }

  /** The digits written for n stand for n, without a leading zero unless n is 0. */
  lemma {:induction false} DigitsReadBack(n: nat, hex: bool)
    ensures IsNumber(Digits(n, hex), hex) && Value(Digits(n, hex), hex) == n
    ensures Digits(n, hex)[0] == '0' <==> n == 0
  {
    var d := Last(n, hex);
    DigitWorth(d, hex);
    if Base(hex) <= n {
      var q := Digits(Quotient(n, hex), hex);
      DigitsReadBack(Quotient(n, hex), hex);
      OneMoreDigit(q, DigitChar(d), hex);
    } else {
      OneMoreDigit([], DigitChar(d), hex);
      assert [] + [DigitChar(d)] == [DigitChar(d)];
    }
  }

  lemma {:induction false} NumberIsValue(s: seq<char>, i: nat, j: nat)
    requires i <= j <= |s| && IsNumber(s[i..j], false)
    ensures forall k :: i <= k < j ==> Digit(s[k])
    ensures Number(s, i, j) == Value(s[i..j], false)
    decreases j - i
  {
    forall k | i <= k < j ensures Digit(s[k]) { assert s[i..j][k-i] == s[k]; }
    if i < j {
      assert s[i..j][..j-i-1] == s[i..j-1];
      NumberIsValue(s, i, j - 1);
    }
  }

  lemma {:induction false} SkipAll(s: seq<char>, i: nat, j: nat)
    requires i <= j <= |s| && (forall k :: i <= k < j ==> Digit(s[k])) && (j < |s| ==> !Digit(s[j]))
    ensures SkipDigits(s, i) == j
    decreases j - i
  {
    if i < j { SkipAll(s, i + 1, j); }
  }

  /** A row of digits that ends at e is scanned as the number it stands for. */
  lemma ScanDigits(s: seq<char>, k: nat, e: nat, m: nat)
    requires k <= e <= |s| && s[k..e] == Digits(m, false) && (e < |s| ==> !Digit(s[e]))
    ensures SkipDigits(s, k) == e && Number(s, k, e) == m && k < e && Digit(s[k])
  {
    DigitsReadBack(m, false);
    NumberIsValue(s, k, e);
    SkipAll(s, k, e);
  }

  lemma ScanSigned(s: seq<char>, i: nat, e: nat, n: int)
    requires i <= e <= |s| && s[i..e] == Decimal(n) && (e < |s| ==> !Digit(s[e]))
    ensures ScanInt(s, i) == Found(n, e)
  {
    if n < 0 { ScanNegative(s, i, e, -n); } else { ScanPlain(s, i, e, n); }
  }

  lemma ScanNegative(s: seq<char>, i: nat, e: nat, m: nat)
    requires 0 < m && i <= e <= |s| && s[i..e] == ['-'] + Digits(m, false) && (e < |s| ==> !Digit(s[e]))
    ensures ScanInt(s, i) == Found(0 - m, e)
  {
    assert s[i+1..e] == s[i..e][1..] == Digits(m, false);
    assert s[i] == s[i..e][0] == '-';
    ScanDigits(s, i + 1, e, m);
    assert SkipSpaces(s, i) == i;
  }

  lemma ScanPlain(s: seq<char>, i: nat, e: nat, m: nat)
    requires i <= e <= |s| && s[i..e] == Digits(m, false) && (e < |s| ==> !Digit(s[e]))
    ensures ScanInt(s, i) == Found(m, e)
  {
    ScanDigits(s, i, e, m);
    assert SkipSpaces(s, i) == i;
  }

  /** What "%d" writes, sscanf's "%d" reads back, wherever it stands, if no other
      digit follows. */
  lemma ScanReadsBack(before: seq<char>, n: int, after: seq<char>)
    requires after != [] ==> !Digit(after[0])
    ensures ScanInt(before + Decimal(n) + after, |before|) == Found(n, |before| + |Decimal(n)|)
  {
    var s, e := before + Decimal(n) + after, |before| + |Decimal(n)|;
    assert s[|before|..e] == Decimal(n);
    assert e < |s| ==> s[e] == after[0];
    ScanSigned(s, |before|, e, n);
  }

  // ---- Formats ------------------------------------------------------------

  predicate Conversion(c: char) { c == 'c' || c == 's' || c == 'd' || c == 'x' }

  /** A '%' with a character after it. */
  predicate Directive(f: seq<char>, i: nat) { i + 1 < |f| && f[i] == '%' }

  /** The directive at i consumes an argument. */
  predicate Needs(f: seq<char>, i: nat) { Directive(f, i) && Conversion(f[i+1]) }

  predicate Suits(c: char, arg: Arg)
  {
    match c
    case 'c' => arg.Int?
    case 's' => arg.Str? && NoNul(arg.s)
    case 'd' => arg.Int? && arg.n != -0x8000_0000
    case 'x' => arg.Unsigned?
    case _ => true
  }

  function After(f: seq<char>, i: nat): nat
  {
    if Directive(f, i) then i + 2 else i + 1
  }

  function Left(f: seq<char>, i: nat, a: nat): nat
  {
    if Needs(f, i) then a + 1 else a
  }

  /** From position i of the format, every conversion finds an argument of its
      type, starting with argument a. */
  predicate Matches(f: seq<char>, i: nat, args: seq<Arg>, a: nat)
    decreases |f| - i
  {
    i >= |f| || (ArgAt(f, i, args, a) && Matches(f, After(f, i), args, Left(f, i, a)))
  }

  predicate ArgAt(f: seq<char>, i: nat, args: seq<Arg>, a: nat)
  {
    Needs(f, i) ==> a < |args| && Suits(f[i+1], args[a])
  }

  /** The text of the character or directive at i. An unknown directive stands for
      itself, and so does a '%' at the end. */
  function Piece(f: seq<char>, i: nat, args: seq<Arg>, a: nat): seq<char>
    requires i < |f| && ArgAt(f, i, args, a)
  {
    if !Directive(f, i) then [f[i]]
    else
      match f[i+1]
      case 'c' => [(args[a].n % 256) as char]
      case 's' => args[a].s
      case 'd' => Decimal(args[a].n)
      case 'x' => Digits(args[a].u, true)
      case '%' => ['%']
      case _ => [f[i], f[i+1]]
  }

  function Formatted(f: seq<char>, i: nat, args: seq<Arg>, a: nat): seq<char>
    requires Matches(f, i, args, a)
    decreases |f| - i
  {
    if i >= |f| then []
    else Piece(f, i, args, a) + Formatted(f, After(f, i), args, Left(f, i, a))
  }

  predicate NoPercent(f: seq<char>, i: nat) { forall k :: i <= k < |f| ==> f[k] != '%' }

  /** Text without directives is formatted as itself. */
  lemma {:induction false} PlainText(f: seq<char>, i: nat, args: seq<Arg>, a: nat)
    requires i <= |f| && NoPercent(f, i)
    ensures Matches(f, i, args, a) && Formatted(f, i, args, a) == f[i..]
    decreases |f| - i
  {
    if i < |f| {
      PlainText(f, i + 1, args, a);
      assert f[i..] == [f[i]] + f[i+1..];
    }
  }

  /** A stretch without directives contributes itself. */
  lemma {:induction false} PlainThen(f: seq<char>, i: nat, j: nat, args: seq<Arg>, a: nat)
    requires i <= j <= |f| && (forall k :: i <= k < j ==> f[k] != '%') && Matches(f, j, args, a)
    ensures Matches(f, i, args, a) && Formatted(f, i, args, a) == f[i..j] + Formatted(f, j, args, a)
    decreases j - i
  {
    if i < j {
      PlainThen(f, i + 1, j, args, a);
      FormatNext(f, i, args, a, [f[i]], i + 1, a);
      JoinedText(f, i, j, Formatted(f, j, args, a));
    } else {
      assert f[i..j] + Formatted(f, j, args, a) == Formatted(f, j, args, a);
    }
  }

  lemma JoinedText(f: seq<char>, i: nat, j: nat, rest: seq<char>)
    requires i < j <= |f|
    ensures [f[i]] + (f[i+1..j] + rest) == f[i..j] + rest
  {
    assert f[i..j] == [f[i]] + f[i+1..j];
  }

  predicate Plain(s: seq<char>) { forall k :: 0 <= k < |s| ==> s[k] != '%' }

  /** One directive with plain text around it. */
  lemma Surrounded(before: seq<char>, c: char, after: seq<char>, args: seq<Arg>, piece: seq<char>)
    requires Plain(before) && Plain(after)
    requires ArgAt(['%', c], 0, args, 0) && Piece(['%', c], 0, args, 0) == piece
    ensures var f := before + ['%', c] + after;
      Matches(f, 0, args, 0) && Formatted(f, 0, args, 0) == before + piece + after
  {
    var f, i := before + ['%', c] + after, |before|;
    ThreeParts(before, c, after, f, i);
    DirectiveAt(f, i, c, args, piece);
    PlainThen(f, 0, i, args, 0);
    assert before + (piece + after) == before + piece + after;
  }

  lemma ThreeParts(before: seq<char>, c: char, after: seq<char>, f: seq<char>, i: nat)
    requires f == before + ['%', c] + after && i == |before| && Plain(before)
    ensures i + 1 < |f| && f[i] == '%' && f[i+1] == c && f[i+2..] == after && f[0..i] == before
    ensures forall k :: 0 <= k < i ==> f[k] != '%'
  {
    assert forall k :: 0 <= k < i ==> f[k] == before[k];
  }

  /** A directive at i with plain text after it. */
  lemma DirectiveAt(f: seq<char>, i: nat, c: char, args: seq<Arg>, piece: seq<char>)
    requires i + 1 < |f| && f[i] == '%' && f[i+1] == c && Plain(f[i+2..])
    requires ArgAt(['%', c], 0, args, 0) && Piece(['%', c], 0, args, 0) == piece
    ensures Matches(f, i, args, 0) && Formatted(f, i, args, 0) == piece + f[i+2..]
  {
    var b := Left(f, i, 0);
    forall k | i + 2 <= k < |f| ensures f[k] != '%' { assert f[i+2..][k-(i+2)] == f[k]; }
    PlainText(f, i + 2, args, b);
    SamePiece(f, i, c, args);
    FormatNext(f, i, args, 0, piece, i + 2, b);
  }

  lemma SamePiece(f: seq<char>, i: nat, c: char, args: seq<Arg>)
    requires i + 1 < |f| && f[i] == '%' && f[i+1] == c && ArgAt(['%', c], 0, args, 0)
    ensures ArgAt(f, i, args, 0) && Piece(f, i, args, 0) == Piece(['%', c], 0, args, 0)
  {
    var g := ['%', c];
    assert g[0] == '%' && g[1] == c && Directive(g, 0) && Directive(f, i);
  }

  /** "%s" stands for its string. */
  lemma StringText(before: seq<char>, text: seq<char>, after: seq<char>)
    requires Plain(before) && Plain(after) && NoNul(text)
    ensures var f := before + "%s" + after;
      Matches(f, 0, [Str(text)], 0) && Formatted(f, 0, [Str(text)], 0) == before + text + after
  {
    Surrounded(before, 's', after, [Str(text)], text);
  }

  /** "%c" stands for the character with its number, modulo 256. */
  lemma CharText(before: seq<char>, n: Int32, c: Byte, after: seq<char>)
    requires Plain(before) && Plain(after) && (n - c) % 256 == 0
    ensures var f := before + "%c" + after;
      Matches(f, 0, [Int(n)], 0) && Formatted(f, 0, [Int(n)], 0) == before + [c as char] + after
  {
    SameByte(n, c);
    Surrounded(before, 'c', after, [Int(n)], [c as char]);
  }

  lemma SameByte(n: int, c: Byte)
    requires (n - c) % 256 == 0
    ensures n % 256 == c
  {
    assert n == 256 * ((n - c) / 256) + c;
  }

  /** "%x" stands for a row of hexadecimal digits that has the value of its argument. */
  lemma HexFieldText(before: seq<char>, u: Word, after: seq<char>)
    requires Plain(before) && Plain(after)
    ensures var f := before + "%x" + after; var field := Digits(u, true);
      && Matches(f, 0, [Unsigned(u)], 0) && Formatted(f, 0, [Unsigned(u)], 0) == before + field + after
      && IsNumber(field, true) && Value(field, true) == u
  {
    DigitsReadBack(u, true);
    Surrounded(before, 'x', after, [Unsigned(u)], Digits(u, true));
  }

  /** A directive that is none of these stands for itself. */
  lemma UnknownText(before: seq<char>, c: char, after: seq<char>)
    requires Plain(before) && Plain(after) && !Conversion(c) && c != '%'
    ensures var f := before + ['%', c] + after; Matches(f, 0, [], 0) && Formatted(f, 0, [], 0) == f
  {
    Surrounded(before, c, after, [], ['%', c]);
  }

  /** Every '%' doubled. */
  function Escaped(s: seq<char>): seq<char>
  {
    if s == [] then [] else (if s[0] == '%' then ['%', '%'] else [s[0]]) + Escaped(s[1..])
  }

  /** Any text at all, with its '%' doubled, is formatted as that text. */
  lemma EscapedText(s: seq<char>, args: seq<Arg>)
    ensures Matches(Escaped(s), 0, args, 0) && Formatted(Escaped(s), 0, args, 0) == s
  {
    EscapedFrom([], s, args);
    assert [] + Escaped(s) == Escaped(s);
  }

  lemma {:induction false} EscapedFrom(before: seq<char>, s: seq<char>, args: seq<Arg>)
    ensures var f := before + Escaped(s); Matches(f, |before|, args, 0) && Formatted(f, |before|, args, 0) == s
    decreases |s|
  {
    var f := before + Escaped(s);
    if s != [] {
      var first := if s[0] == '%' then ['%', '%'] else [s[0]];
      assert f == (before + first) + Escaped(s[1..]);
      EscapedFrom(before + first, s[1..], args);
      assert f[|before|] == first[0] && (s[0] == '%' ==> f[|before|+1] == '%');
      FormatNext(f, |before|, args, 0, [s[0]], |before| + |first|, 0);
      assert [s[0]] + s[1..] == s;
    }
  }

  // ---- Positions ----------------------------------------------------------

  const POSITION: seq<char> := "%d;%dH"

  lemma PositionText(row: Int32, column: Int32)
    requires -0x8000_0000 < row && -0x8000_0000 < column
    ensures var args := [Int(row), Int(column)];
      Matches(POSITION, 0, args, 0) &&
      Formatted(POSITION, 0, args, 0) == Decimal(row) + [';'] + Decimal(column) + ['H']
  {
    var args := [Int(row), Int(column)];
    PositionTail(row, column);
    DecimalNext(POSITION, 0, args, 0);
    FourParts(Decimal(row), [';'], Decimal(column), ['H']);
  }

  lemma FourParts(a: seq<char>, b: seq<char>, c: seq<char>, d: seq<char>)
    ensures a + (b + (c + d)) == a + b + c + d
  {
    assert b + (c + d) == b + c + d;
    assert a + (b + c + d) == a + (b + c) + d;
    assert a + (b + c) == a + b + c;
  }

  /** A "%d" contributes the decimal of its argument. */
  lemma DecimalNext(f: seq<char>, i: nat, args: seq<Arg>, a: nat)
    requires i + 1 < |f| && f[i] == '%' && f[i+1] == 'd' && a < |args| && args[a].Int? && args[a].n != -0x8000_0000
    requires Matches(f, i + 2, args, a + 1)
    ensures Matches(f, i, args, a) && Formatted(f, i, args, a) == Decimal(args[a].n) + Formatted(f, i + 2, args, a + 1)
  {
    FormatNext(f, i, args, a, Decimal(args[a].n), i + 2, a + 1);
  }

  lemma FormatNext(f: seq<char>, i: nat, args: seq<Arg>, a: nat, piece: seq<char>, j: nat, b: nat)
    requires i < |f| && ArgAt(f, i, args, a) && Piece(f, i, args, a) == piece
    requires After(f, i) == j && Left(f, i, a) == b && Matches(f, j, args, b)
    ensures Matches(f, i, args, a) && Formatted(f, i, args, a) == piece + Formatted(f, j, args, b)
  {
  }

  lemma PositionTail(row: Int32, column: Int32)
    requires -0x8000_0000 < row && -0x8000_0000 < column
    ensures var args := [Int(row), Int(column)];
      Matches(POSITION, 2, args, 1) && Formatted(POSITION, 2, args, 1) == [';'] + (Decimal(column) + ['H'])
  {
    var args := [Int(row), Int(column)];
    PlainText(POSITION, 5, args, 2);
    assert POSITION[5..] == ['H'];
    DecimalNext(POSITION, 3, args, 1);
    FormatNext(POSITION, 2, args, 1, [';'], 3, 1);
  }

  lemma PositionScanned(row: int, column: int)
    ensures Scanned(Decimal(row) + [';'] + Decimal(column) + ['H']) == Params(row, column)
  {
    var r, c := Decimal(row), Decimal(column);
    var s := r + [';'] + c + ['H'];
    assert s == [] + r + ([';'] + c + ['H']);
    ScanReadsBack([], row, [';'] + c + ['H']);
    ScanReadsBack(r + [';'], column, ['H']);
    assert s[|r|] == ';';
  }

  /** A cursor position formatted by the kernel and sent to its own terminal as a
      control sequence puts the cursor there. */
  lemma PositionReadBack(t: Term, x: Byte, y: Byte)
    ensures var args := [Int(y + 1), Int(x + 1)];
      Matches(POSITION, 0, args, 0) && Formatted(POSITION, 0, args, 0) != [] &&
      Execute(t, Formatted(POSITION, 0, args, 0)) == At(t, x, y)
  {
    PositionText(y + 1, x + 1);
    PositionScanned(y + 1, x + 1);
    PositionMoves(t, x, y, Decimal(y + 1) + [';'] + Decimal(x + 1) + ['H']);
  }

  lemma PositionMoves(t: Term, x: Byte, y: Byte, body: seq<char>)
    requires body != [] && body[|body|-1] == 'H' && Scanned(body) == Params(y + 1, x + 1)
    ensures Execute(t, body) == At(t, x, y)
  {
    assert (x + 1 - 1) % 256 == x && (y + 1 - 1) % 256 == y;
  }

  // ---- Moves --------------------------------------------------------------

  /** The cursor after a formatted move: n places in the direction of the letter,
      but not off the screen. */
  predicate MovedBy(t: Term, u: Term, letter: char, n: int)
  {
    match letter
    case 'A' => u.x == t.x && u.y <= t.y && (t.y - u.y == n || (u.y == 0 && t.y - u.y <= n))
    case 'B' => u.x == t.x && t.y <= u.y && (u.y - t.y == n || (u.y == t.h - 1 && u.y - t.y <= n))
    case 'C' => u.y == t.y && t.x <= u.x && (u.x - t.x == n || (u.x == t.w - 1 && u.x - t.x <= n))
    case 'D' => u.y == t.y && u.x <= t.x && (t.x - u.x == n || (u.x == 0 && t.x - u.x <= n))
    case _ => false
  }

  lemma MoveText(letter: char, n: Int32)
    requires Letter(letter) && -0x8000_0000 < n
    ensures Matches("%d" + [letter], 0, [Int(n)], 0)
    ensures Formatted("%d" + [letter], 0, [Int(n)], 0) == Decimal(n) + [letter]
  {
    var f, args := "%d" + [letter], [Int(n)];
    PlainText(f, 2, args, 1);
    assert f[2..] == [letter];
    DecimalNext(f, 0, args, 0);
  }

  /** A move formatted by the kernel and sent to its own terminal moves the cursor
      up (A), down (B), right (C) or left (D) by that many places. */
  lemma MoveReadBack(t: Term, letter: char, n: Int32)
    requires 0 <= n && 'A' <= letter <= 'D' && InRange(t)
    ensures Matches("%d" + [letter], 0, [Int(n)], 0)
    ensures MovedBy(t, Execute(t, Formatted("%d" + [letter], 0, [Int(n)], 0)), letter, n)
  {
    MoveText(letter, n);
    var body := Decimal(n) + [letter];
    ScanReadsBack([], n, [letter]);
    assert body == [] + Decimal(n) + [letter];
    assert Scanned(body) == Params(n, 1);
    MovesCursor(t, letter, n, body);
  }

  lemma MovesCursor(t: Term, letter: char, n: nat, body: seq<char>)
    requires 'A' <= letter <= 'D' && InRange(t) && body != [] && body[|body|-1] == letter && Scanned(body) == Params(n, 1)
    ensures MovedBy(t, Execute(t, body), letter, n)
  {
  }

  // ---- Defaults -----------------------------------------------------------

  lemma NoParameters(letter: char)
    requires Letter(letter)
    ensures ScanInt([letter], 0) == Nothing && Scanned([letter]) == Params(1, 1)
  {
    assert SkipSpaces([letter], 0) == 0 && SkipDigits([letter], 0) == 0;
  }

  /** ESC [ and a letter A to D moves the cursor one place. */
  lemma BareMove(t: Term, letter: char)
    requires 'A' <= letter <= 'D' && InRange(t)
    ensures MovedBy(t, Execute(t, [letter]), letter, 1)
  {
    NoParameters(letter);
    MovesCursor(t, letter, 1, [letter]);
  }

  /** A move by no or a negative number of places moves nothing, and neither does a move
      right or down from the last column or line, or from beyond it. */
  lemma StuckMove(t: Term, letter: char, n: int)
    requires 'A' <= letter <= 'D'
    requires n <= 0 || (letter == 'B' && t.h <= t.y + 1) || (letter == 'C' && t.w <= t.x + 1)
    ensures Execute(t, Decimal(n) + [letter]) == At(t, t.x, t.y)
  {
    var body := Decimal(n) + [letter];
    ScanReadsBack([], n, [letter]);
    assert body == [] + Decimal(n) + [letter];
    assert Scanned(body) == Params(n, 1);
    StuckObey(t, letter, n);
  }

  lemma StuckObey(t: Term, letter: char, n: int)
    requires 'A' <= letter <= 'D'
    requires n <= 0 || (letter == 'B' && t.h <= t.y + 1) || (letter == 'C' && t.w <= t.x + 1)
    ensures Obey(t, ControlOf(letter), Params(n, 1)) == At(t, t.x, t.y)
  {
  }

  /** ESC [ H takes it to the top left, and with one number, a semicolon after it or not,
      to the start of that line. */
  lemma BareHome(t: Term, y: Byte)
    ensures Execute(t, ['H']) == At(t, 0, 0)
    ensures Execute(t, Decimal(y + 1) + ['H']) == At(t, 0, y)
    ensures Execute(t, Decimal(y + 1) + [';', 'H']) == At(t, 0, y)
  {
    NoParameters('H');
    PositionMoves(t, 0, 0, ['H']);
    BareRow(y + 1);
    PositionMoves(t, 0, y, Decimal(y + 1) + ['H']);
    BareColumn(y + 1);
    PositionMoves(t, 0, y, Decimal(y + 1) + [';', 'H']);
  }

  lemma BareRow(row: int)
    ensures Scanned(Decimal(row) + ['H']) == Params(row, 1)
  {
    ScanReadsBack([], row, ['H']);
    assert Decimal(row) + ['H'] == [] + Decimal(row) + ['H'];
  }

  lemma BareColumn(row: int)
    ensures Scanned(Decimal(row) + [';', 'H']) == Params(row, 1)
  {
    var s, i := Decimal(row) + [';', 'H'], |Decimal(row)|;
    assert s == [] + Decimal(row) + [';', 'H'];
    ScanReadsBack([], row, [';', 'H']);
    assert s[i] == ';' && s[i+1] == 'H' && SkipSpaces(s, i + 1) == i + 1 && SkipDigits(s, i + 1) == i + 1;
  }

  /** ESC [ J and ESC [ m do nothing; the standard makes them clear from the cursor and
      reset the colours. */
  lemma BareOthersIgnored(t: Term)
    ensures Execute(t, ['J']) == t && Execute(t, ['m']) == t
  {
    NoParameters('J');
    NoParameters('m');
  }

  /** White space and a plus sign before a number are passed over. */
  lemma SpacedNumber(spaces: seq<char>, sign: seq<char>, n: nat, after: seq<char>)
    requires (forall k :: 0 <= k < |spaces| ==> spaces[k] == ' ' || 9 <= spaces[k] as int <= 13)
    requires (sign == [] || sign == ['+']) && (after != [] ==> !Digit(after[0]))
    ensures ScanInt(spaces + sign + Digits(n, false) + after, 0) == Found(n, |spaces| + |sign| + |Digits(n, false)|)
  {
    var s, i, k := spaces + sign + Digits(n, false) + after, |spaces|, |spaces| + |sign|;
    var e := k + |Digits(n, false)|;
    assert s[k..e] == Digits(n, false);
    assert e < |s| ==> s[e] == after[0];
    ScanDigits(s, k, e, n);
    assert sign != [] ==> s[i] == '+';
    assert forall x :: 0 <= x < i ==> s[x] == spaces[x];
    SpacesSkipped(s, 0, i);
  }

  lemma {:induction false} SpacesSkipped(s: seq<char>, i: nat, j: nat)
    requires i <= j <= |s| && (forall k :: i <= k < j ==> Space(s[k])) && (j < |s| ==> !Space(s[j]))
    ensures SkipSpaces(s, i) == j
    decreases j - i
  {
    if i < j { SpacesSkipped(s, i + 1, j); }
  }
}
