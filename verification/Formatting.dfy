/** vsnprintf: an interpreter that stops at the end of the buffer and writes its
    numbers backwards into a scratch array before reversing them in place. */
module Formatting {
  import opened Common
  import opened FormatSpec

  const SCRATCH: nat := 32

  function Reversed(s: seq<char>): (r: seq<char>)
    ensures |r| == |s|
  {
    seq(|s|, i requires 0 <= i < |s| => s[|s|-1-i])
  }

  lemma ReversedPush(s: seq<char>, c: char)
    ensures Reversed(s + [c]) == [c] + Reversed(s)
  {
  }

  // ---- Scratch array ------------------------------------------------------

  /** The reversal loop over the first n characters. */
  method ReversePrefix(temp: array<char>, n: nat)
    requires n <= temp.Length
    modifies temp
    ensures temp[..n] == Reversed(old(temp[..n])) && temp[n..] == old(temp[n..])
  {
    for j := 0 to n / 2
      invariant forall k :: 0 <= k < j ==> temp[k] == old(temp[n - 1 - k]) && temp[n - 1 - k] == old(temp[k])
      invariant forall k :: j <= k < n - j || n <= k < temp.Length ==> temp[k] == old(temp[k])
    {
      var t := temp[j];
      temp[j] := temp[n - 1 - j];
      temp[n - 1 - j] := t;
    }
    assert forall k :: 0 <= k < n ==> temp[k] == old(temp[n - 1 - k]);
  }

  /** The digit loop: least significant first. */
  method PutDigits(temp: array<char>, num: Word, hex: bool) returns (i: nat)
    requires temp.Length == SCRATCH && 0 < num
    modifies temp
    ensures i <= 10 && Reversed(temp[..i]) == Digits(num, hex)
  {
    WordFits(num, hex);
    var n: nat := num;
    i := 0;
    assert Reversed(temp[..0]) == [];
    while n > 0
      invariant i <= 10 && (n == 0 || i < 10)
      invariant (if n == 0 then [] else Digits(n, hex)) + Reversed(temp[..i]) == Digits(num, hex)
    {
      ghost var done := temp[..i];
      temp[i] := DigitChar(Last(n, hex));
      assert temp[..i+1] == done + [temp[i]];
      ReversedPush(done, temp[i]);
      NextDigit(n, hex, Reversed(done));
      n := Quotient(n, hex);
      i := i + 1;
    }
  }

  lemma NextDigit(n: nat, hex: bool, rest: seq<char>)
    requires 0 < n
    ensures var q := Quotient(n, hex);
      Digits(n, hex) + rest == (if q == 0 then [] else Digits(q, hex)) + ([DigitChar(Last(n, hex))] + rest)
  {
  }

  /** strlen: the index of the first NUL. */
  method Strlen(temp: array<char>) returns (n: nat)
    requires NUL in temp[..]
    ensures n < temp.Length && temp[n] == NUL && forall k :: 0 <= k < n ==> temp[k] != NUL
  {
    ghost var end :| 0 <= end < temp.Length && temp[end] == NUL;
    n := 0;
    while temp[n] != NUL
      invariant n <= end && forall k :: 0 <= k < n ==> temp[k] != NUL
      decreases end - n
    {
      n := n + 1;
    }
  }

  method Terminate(temp: array<char>, i: nat) returns (n: nat)
    requires i < temp.Length && NoNul(temp[..i])
    modifies temp
    ensures n == i && temp[..i] == old(temp[..i])
  {
    ghost var text := temp[..i];
    temp[i] := NUL;
    assert temp[..][i] == NUL && temp[..i] == text;
    assert forall k :: 0 <= k < i ==> temp[k] == text[k];
    n := Strlen(temp);
  }

  /** The text of "%d". */
  method DecimalText(num: Int32) returns (temp: array<char>, len: nat)
    requires num != -0x8000_0000
    ensures fresh(temp) && len <= temp.Length && temp[..len] == Decimal(num)
  {
    temp := new char[SCRATCH];
    var i: nat := 0;
    if num == 0 {
      temp[i] := '0';
      i := i + 1;
      assert temp[..i] == Decimal(num);
    } else {
      var n := if num < 0 then -num else num;
      i := PutDigits(temp, n, false);
      if num < 0 {
        ReversedPush(temp[..i], '-');
        temp[i] := '-';
        i := i + 1;
        assert temp[..i] == temp[..i-1] + ['-'];
      }
      ReversePrefix(temp, i);
    }
    len := Terminate(temp, i);
  }

  /** The text of "%x". */
  method HexText(num: Word) returns (temp: array<char>, len: nat)
    ensures fresh(temp) && len <= temp.Length && temp[..len] == Digits(num, true)
  {
    temp := new char[SCRATCH];
    var i: nat := 0;
    if num == 0 {
      temp[i] := '0';
      i := i + 1;
      assert temp[..i] == Digits(num, true);
    } else {
      i := PutDigits(temp, num, true);
      ReversePrefix(temp, i);
    }
    len := Terminate(temp, i);
  }

  // ---- The interpreter ----------------------------------------------------

  /** What is written is the start of the full text; as long as there is room,
      the part not yet looked at is the rest of it. */
  predicate OnTrack(done: seq<char>, rest: seq<char>, full: seq<char>, room: nat)
  {
    done + rest == full || (room == 0 && done <= full)
  }

  lemma PieceFits(done: seq<char>, piece: seq<char>, rest: seq<char>, full: seq<char>, room: nat)
    requires done + (piece + rest) == full
    ensures var n := Min(|piece|, room); OnTrack(done + piece[..n], rest, full, room - n)
  {
    var n := Min(|piece|, room);
    if n == |piece| {
      assert piece[..n] == piece && done + piece + rest == done + (piece + rest);
    } else {
      assert full[..|done| + n] == done + piece[..n];
    }
  }

  /** memcpy of the first n characters of a text. */
  method PutText(str: array<char>, s: nat, text: seq<char>, n: nat)
    requires n <= |text| && s + n <= str.Length
    modifies str
    ensures str[..s+n] == old(str[..s]) + text[..n]
    ensures str[s+n..] == old(str[s+n..])
  {
    ghost var before := str[..s];
    for i := 0 to n
      invariant str[..s+i] == before + text[..i]
      invariant forall k :: s + i <= k < str.Length ==> str[k] == old(str[k])
    {
      str[s + i] := text[i];
      assert str[..s+i+1] == str[..s+i] + [text[i]];
    }
  }

  /** As much of a text as there is room for. */
  method PutCut(str: array<char>, s: nat, room: nat, text: seq<char>) returns (n: nat)
    requires s + room <= str.Length
    modifies str
    ensures n == Min(|text|, room)
    ensures str[..s+n] == old(str[..s]) + text[..n]
    ensures str[s+n..] == old(str[s+n..])
  {
    n := if |text| < room then |text| else room;
    PutText(str, s, text, n);
  }

  /** One pass of the loop: the character or directive at i, cut to what fits. */
  method PutPiece(str: array<char>, s: nat, room: nat, f: seq<char>, i: nat, args: seq<Arg>, a: nat) returns (n: nat)
    requires i < |f| && NoNul(f) && ArgAt(f, i, args, a) && 0 < room && s + room <= str.Length
    modifies str
    ensures n == Min(|Piece(f, i, args, a)|, room)
    ensures str[..s+n] == old(str[..s]) + Piece(f, i, args, a)[..n]
    ensures str[s+n..] == old(str[s+n..])
  {
    if f[i] != '%' {
      PutText(str, s, [f[i]], 1);
      return 1;
    }
    var c := if i + 1 < |f| then f[i+1] else NUL;
    match c {
      case 'c' =>
        PutText(str, s, [(args[a].n % 256) as char], 1);
        n := 1;
      case 's' =>
        n := PutCut(str, s, room, args[a].s);
      case 'd' =>
        var temp, len := DecimalText(args[a].n);
        n := PutCut(str, s, room, temp[..len]);
      case 'x' =>
        var temp, len := HexText(args[a].u);
        n := PutCut(str, s, room, temp[..len]);
      case '%' =>
        PutText(str, s, ['%'], 1);
        n := 1;
      case _ =>
        n := PutUnknown(str, s, room, c);
    }
  }

  /** An unknown directive: '%', and the character after it if there is one and it
      still fits. */
  method PutUnknown(str: array<char>, s: nat, room: nat, c: char) returns (n: nat)
    requires 0 < room && s + room <= str.Length
    modifies str
    ensures var piece := if c == NUL then ['%'] else ['%', c];
      n == Min(|piece|, room) && str[..s+n] == old(str[..s]) + piece[..n]
    ensures str[s+n..] == old(str[s+n..])
  {
    PutText(str, s, ['%'], 1);
    n := 1;
    if room > 1 && c != NUL {
      PutText(str, s + 1, [c], 1);
      n := 2;
    }
  }

  /** The first min(length, size - 1) characters of the full text, a NUL, and
      nothing else. */
  method Vsnprintf(str: array?<char>, size: nat, f: seq<char>, args: seq<Arg>) returns (written: nat)
    requires str != null ==> size <= str.Length
    requires NoNul(f) && Matches(f, 0, args, 0)
    modifies if str == null then {} else {str}
    ensures str == null || size == 0 ==> written == 0 && (str != null ==> str[..] == old(str[..]))
    ensures str != null && 0 < size ==>
      && written == Min(|Formatted(f, 0, args, 0)|, size - 1)
      && str[..written] == Formatted(f, 0, args, 0)[..written]
      && str[written] == NUL && str[written+1..] == old(str[written+1..])
  {
    if str == null || size == 0 {
      return 0;
    }
    written := Interpret(str, size - 1, f, args);
    ghost var text := str[..written];
    str[written] := NUL;
    assert str[..written] == text;
  }

  /** One pass keeps the buffer on track. */
  method OnePass(str: array<char>, s: nat, room: nat, f: seq<char>, i: nat, args: seq<Arg>, a: nat, ghost full: seq<char>)
    returns (n: nat)
    requires i < |f| && NoNul(f) && Matches(f, i, args, a) && 0 < room && s + room < str.Length
    requires OnTrack(str[..s], Formatted(f, i, args, a), full, room)
    modifies str
    ensures n <= room && OnTrack(str[..s+n], Formatted(f, After(f, i), args, Left(f, i, a)), full, room - n)
    ensures forall k :: s + n <= k < str.Length ==> str[k] == old(str[k])
  {
    ghost var done := str[..s];
    n := PutPiece(str, s, room, f, i, args, a);
    PieceFits(done, Piece(f, i, args, a), Formatted(f, After(f, i), args, Left(f, i, a)), full, room);
    assert forall k :: s + n <= k < str.Length ==> str[s+n..][k-(s+n)] == str[k] == old(str[k]);
  }

  /** The loop over the format, with room for that many characters. */
  method Interpret(str: array<char>, room: nat, f: seq<char>, args: seq<Arg>) returns (written: nat)
    requires room < str.Length && NoNul(f) && Matches(f, 0, args, 0)
    modifies str
    ensures written == Min(|Formatted(f, 0, args, 0)|, room)
    ensures str[..written] == Formatted(f, 0, args, 0)[..written] && str[written..] == old(str[written..])
  {
    ghost var full := Formatted(f, 0, args, 0);
    var i: nat, a: nat, remaining: nat := 0, 0, room;
    written := 0;
    assert str[..0] + full == full;
    while i < |f| && remaining > 0
      invariant written + remaining == room && Matches(f, i, args, a)
      invariant OnTrack(str[..written], Formatted(f, i, args, a), full, remaining)
      invariant forall k :: written <= k < str.Length ==> str[k] == old(str[k])
      decreases |f| - i
    {
      var n := OnePass(str, written, remaining, f, i, args, a, full);
      i, a := After(f, i), Left(f, i, a);
      written := written + n;
      remaining := remaining - n;
    }
    Finished(str[..written], Formatted(f, i, args, a), full, remaining, i < |f|);
  }

  lemma Finished(done: seq<char>, rest: seq<char>, full: seq<char>, room: nat, more: bool)
    requires OnTrack(done, rest, full, room) && (more ==> room == 0) && (!more ==> rest == [])
    ensures |done| == Min(|full|, |done| + room) && done == full[..|done|]
  {
  }
}
