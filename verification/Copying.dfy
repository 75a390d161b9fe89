/** Element-by-element copies inside one buffer: when the copy gives the
    destination the source's old contents, and exactly when it does not. */
module Copying {
  import opened Common

  /** offs lists, in increasing order, the offsets a copy loop visits. */
  predicate Increasing(offs: seq<nat>)
  {
    forall i, j :: 0 <= i < j < |offs| ==> offs[i] < offs[j]
  }

  predicate Within(n: nat, at: nat, offs: seq<nat>)
  {
    forall i :: 0 <= i < |offs| ==> at + offs[i] < n
  }

  /** The buffer after the first k passes of `buf[d + off] = buf[s + off]`. */
  function Copied<T>(buf: seq<T>, s: nat, d: nat, offs: seq<nat>, k: nat): (r: seq<T>)
    requires k <= |offs| && Within(|buf|, s, offs) && Within(|buf|, d, offs)
    ensures |r| == |buf|
  {
    if k == 0 then buf
    else
      var before := Copied(buf, s, d, offs, k - 1);
      before[d + offs[k-1] := before[s + offs[k-1]]]
  }

  /** r is buf with the source's old contents at the destination and nothing else
      changed. */
  predicate Faithful<T(==)>(buf: seq<T>, r: seq<T>, s: nat, d: nat, offs: seq<nat>)
    requires Within(|buf|, s, offs) && Within(|buf|, d, offs)
  {
    && |r| == |buf|
    && (forall i :: 0 <= i < |offs| ==> r[d + offs[i]] == buf[s + offs[i]])
    && (forall x :: 0 <= x < |buf| && Untouched(x, d, offs, |offs|) ==> r[x] == buf[x])
  }

  predicate Untouched(x: nat, d: nat, offs: seq<nat>, k: nat)
    requires k <= |offs|
  {
    forall i :: 0 <= i < k ==> x != d + offs[i]
  }

  /** Pass i overwrites what pass j > i is going to read. */
  predicate Clobbers(s: nat, d: nat, offs: seq<nat>, i: nat, j: nat)
  {
    i < j < |offs| && d + offs[i] == s + offs[j]
  }

  ghost predicate CanClobber(s: nat, d: nat, offs: seq<nat>)
  {
    exists i: nat, j: nat :: Clobbers(s, d, offs, i, j)
  }

  /** Without such a pair the copy is faithful, whatever the buffer holds. */
  lemma CopyFaithful<T>(buf: seq<T>, s: nat, d: nat, offs: seq<nat>)
    requires Increasing(offs) && Within(|buf|, s, offs) && Within(|buf|, d, offs)
    requires !CanClobber(s, d, offs)
    ensures Faithful(buf, Copied(buf, s, d, offs, |offs|), s, d, offs)
  {
    CopyPrefix(buf, s, d, offs, |offs|);
  }

  /** No pass before the last one writes what the last one reads. */
  lemma SourceIntact(s: nat, d: nat, offs: seq<nat>, k: nat)
    requires 0 < k <= |offs| && !CanClobber(s, d, offs)
    ensures Untouched(s + offs[k-1], d, offs, k - 1)
  {
    forall i | 0 <= i < k - 1 ensures s + offs[k-1] != d + offs[i] {
      assert !Clobbers(s, d, offs, i, k - 1);
    }
  }

  /** r is buf after the first k passes, done faithfully. */
  predicate FaithfulSoFar<T(==)>(buf: seq<T>, r: seq<T>, s: nat, d: nat, offs: seq<nat>, k: nat)
    requires Within(|buf|, s, offs) && Within(|buf|, d, offs) && k <= |offs| && |r| == |buf|
  {
    && (forall i :: 0 <= i < k ==> r[d + offs[i]] == buf[s + offs[i]])
    && (forall x :: 0 <= x < |buf| && Untouched(x, d, offs, k) ==> r[x] == buf[x])
  }

  lemma {:induction false} CopyPrefix<T>(buf: seq<T>, s: nat, d: nat, offs: seq<nat>, k: nat)
    requires Increasing(offs) && Within(|buf|, s, offs) && Within(|buf|, d, offs) && k <= |offs|
    requires !CanClobber(s, d, offs)
    ensures FaithfulSoFar(buf, Copied(buf, s, d, offs, k), s, d, offs, k)
  {
    if k > 0 {
      CopyPrefix(buf, s, d, offs, k - 1);
      SourceIntact(s, d, offs, k);
      OnePass(buf, Copied(buf, s, d, offs, k - 1), s, d, offs, k);
    }
  }

  lemma OnePass<T>(buf: seq<T>, r: seq<T>, s: nat, d: nat, offs: seq<nat>, k: nat)
    requires Increasing(offs) && Within(|buf|, s, offs) && Within(|buf|, d, offs) && 0 < k <= |offs| && |r| == |buf|
    requires FaithfulSoFar(buf, r, s, d, offs, k - 1) && Untouched(s + offs[k-1], d, offs, k - 1)
    ensures FaithfulSoFar(buf, r[d + offs[k-1] := r[s + offs[k-1]]], s, d, offs, k)
  {
    var q := r[d + offs[k-1] := r[s + offs[k-1]]];
    forall x | 0 <= x < |buf| && Untouched(x, d, offs, k) ensures q[x] == buf[x] {
      assert x != d + offs[k-1];
      assert Untouched(x, d, offs, k - 1);
    }
  }

  /** With such a pair some buffer is copied wrongly. */
  lemma CopyBroken<T>(n: nat, s: nat, d: nat, offs: seq<nat>, i: nat, j: nat, a: T, b: T) returns (buf: seq<T>)
    requires Increasing(offs) && Within(n, s, offs) && Within(n, d, offs)
    requires Clobbers(s, d, offs, i, j) && a != b
    ensures |buf| == n
    ensures !Faithful(buf, Copied(buf, s, d, offs, |offs|), s, d, offs)
  {
    buf := seq(n, x => if x == s + offs[j] then b else a);
    OneOdd(buf, s, d, offs, i, j, a, |offs|);
  }

  /** A buffer that is all a but for the cell pass j reads is all a once pass i,
      which overwrites that cell, is done. */
  lemma {:induction false} OneOdd<T>(buf: seq<T>, s: nat, d: nat, offs: seq<nat>, i: nat, j: nat, a: T, k: nat)
    requires Increasing(offs) && Within(|buf|, s, offs) && Within(|buf|, d, offs) && k <= |offs|
    requires Clobbers(s, d, offs, i, j)
    requires forall x :: 0 <= x < |buf| && x != s + offs[j] ==> buf[x] == a
    ensures forall x :: 0 <= x < |buf| && (i < k || x != s + offs[j]) ==> Copied(buf, s, d, offs, k)[x] == a
  {
    if k > 0 {
      OneOdd(buf, s, d, offs, i, j, a, k - 1);
    }
  }

  /** Copies of this shape are faithful on every buffer of n elements. */
  ghost predicate AlwaysFaithful<T(!new)>(n: nat, s: nat, d: nat, offs: seq<nat>)
    requires Within(n, s, offs) && Within(n, d, offs)
  {
    forall buf: seq<T> :: |buf| == n ==> Faithful(buf, Copied(buf, s, d, offs, |offs|), s, d, offs)
  }

  /** They are if and only if no pass overwrites what a later one reads. */
  lemma CopyExact<T(!new)>(n: nat, s: nat, d: nat, offs: seq<nat>, a: T, b: T)
    requires Increasing(offs) && Within(n, s, offs) && Within(n, d, offs) && a != b
    ensures AlwaysFaithful<T>(n, s, d, offs) <==> !CanClobber(s, d, offs)
  {
    if CanClobber(s, d, offs) {
      var i: nat, j: nat :| Clobbers(s, d, offs, i, j);
      var buf := CopyBroken(n, s, d, offs, i, j, a, b);
    } else {
      forall buf: seq<T> | |buf| == n ensures Faithful(buf, Copied(buf, s, d, offs, |offs|), s, d, offs) {
        CopyFaithful(buf, s, d, offs);
      }
    }
  }

  // ---- memcpy and memmove -------------------------------------------------

  function Upto(n: nat): (r: seq<nat>)
    ensures |r| == n && forall i :: 0 <= i < n ==> r[i] == i
  {
    seq(n, i => i)
  }

  /** The test memmove makes before copying forwards. */
  predicate ForwardSafe(d: nat, s: nat, n: nat) { d <= s || d >= s + n }

  /** It is exactly right: a forward copy can go wrong if and only if it fails. */
  lemma ForwardSafeExact(d: nat, s: nat, n: nat)
    ensures ForwardSafe(d, s, n) <==> !CanClobber(s, d, Upto(n))
  {
    if !ForwardSafe(d, s, n) {
      assert Clobbers(s, d, Upto(n), 0, d - s);
    }
  }

  /** memcpy is correct for all contents exactly where memmove uses it. */
  lemma MemcpyExact<T(!new)>(n: nat, d: nat, s: nat, count: nat, a: T, b: T)
    requires d + count <= n && s + count <= n && a != b
    ensures AlwaysFaithful<T>(n, s, d, Upto(count)) <==> ForwardSafe(d, s, count)
  {
    ForwardSafeExact(d, s, count);
    CopyExact(n, s, d, Upto(count), a, b);
  }

  method Memcpy<T(==)>(mem: array<T>, d: nat, s: nat, n: nat)
    requires d + n <= mem.Length && s + n <= mem.Length
    modifies mem
    ensures mem[..] == Copied(old(mem[..]), s, d, Upto(n), n)
  {
    ghost var m0 := mem[..];
    var k := 0;
    while k < n
      invariant k <= n && mem[..] == Copied(m0, s, d, Upto(n), k)
    {
      ghost var m1 := mem[..];
      mem[d+k] := mem[s+k];
      assert mem[..] == m1[d+k := m1[s+k]];
      k := k + 1;
    }
  }

  lemma MemcpyFaithful<T>(buf: seq<T>, s: nat, d: nat, n: nat)
    requires d + n <= |buf| && s + n <= |buf| && ForwardSafe(d, s, n)
    ensures Faithful(buf, Copied(buf, s, d, Upto(n), n), s, d, Upto(n))
  {
    ForwardSafeExact(d, s, n);
    CopyFaithful(buf, s, d, Upto(n));
  }

  lemma UptoTouches(x: nat, d: nat, n: nat)
    requires d <= x < d + n
    ensures !Untouched(x, d, Upto(n), n)
  {
    assert x == d + Upto(n)[x-d];
  }

  /** Correct for every overlap. */
  method Memmove<T(==)>(mem: array<T>, d: nat, s: nat, n: nat)
    requires d + n <= mem.Length && s + n <= mem.Length
    modifies mem
    ensures Faithful(old(mem[..]), mem[..], s, d, Upto(n))
  {
    ghost var m0 := mem[..];
    if d <= s || d >= s + n {
      Memcpy(mem, d, s, n);
      MemcpyFaithful(m0, s, d, n);
    } else {
      var k := n;
      while k > 0
        invariant 0 <= k <= n
        invariant forall x :: d + k <= x < d + n ==> mem[x] == m0[x-d+s]
        invariant forall x :: 0 <= x < d + k ==> mem[x] == m0[x]
        invariant forall x :: d + n <= x < mem.Length ==> mem[x] == m0[x]
      {
        k := k - 1;
        mem[d+k] := mem[s+k];
      }
      forall x: nat | x < mem.Length && Untouched(x, d, Upto(n), n) ensures mem[x] == m0[x] {
        if d <= x < d + n { UptoTouches(x, d, n); }
      }
    }
  }

  method Memset<T>(mem: array<T>, at: nat, c: T, n: nat)
    requires at + n <= mem.Length
    modifies mem
    ensures forall x :: 0 <= x < mem.Length ==> mem[x] == if at <= x < at + n then c else old(mem[x])
  {
    var k := 0;
    while k < n
      invariant k <= n
      invariant forall x :: 0 <= x < mem.Length ==> mem[x] == if at <= x < at + k then c else old(mem[x])
    {
      mem[at+k] := c;
      k := k + 1;
    }
  }

  // ---- Rectangles of a character screen -----------------------------------

  /** Offsets of a rectangle w cells wide and h lines high, line by line. */
  function Rect(w: nat, h: nat): seq<nat>
  {
    if h == 0 then [] else Rect(w, h - 1) + Line(w, h - 1)
  }

  function Line(w: nat, y: nat): (r: seq<nat>)
    ensures |r| == w && forall x :: 0 <= x < w ==> r[x] == y * WIDTH + x
  {
    seq(w, x => y * WIDTH + x)
  }

  /** The offsets are those of the rectangle's cells, in increasing order. */
  lemma {:induction false} RectCells(w: nat, h: nat)
    requires w <= WIDTH
    ensures Increasing(Rect(w, h))
    ensures forall i :: 0 <= i < |Rect(w, h)| ==> Rect(w, h)[i] % WIDTH < w && Rect(w, h)[i] / WIDTH < h
  {
    if h > 0 {
      RectCells(w, h - 1);
      var before, line := Rect(w, h - 1), Line(w, h - 1);
      forall i | 0 <= i < |before| + w
        ensures Rect(w, h)[i] % WIDTH < w && Rect(w, h)[i] / WIDTH < h
        ensures i < |before| ==> Rect(w, h)[i] < (h - 1) * WIDTH
      {
        if i < |before| {
          assert Rect(w, h)[i] == before[i];
        } else {
          assert Rect(w, h)[i] == line[i - |before|] == (h - 1) * WIDTH + (i - |before|);
        }
      }
    }
  }

  /** Cell (x, y) of the rectangle is visited after the lines above it and the
      cells before it on its line. */
  lemma {:induction false} RectAt(w: nat, h: nat, x: nat, y: nat)
    requires x < w && y < h
    ensures |Rect(w, y)| + x < |Rect(w, h)|
    ensures Rect(w, h)[|Rect(w, y)| + x] == y * WIDTH + x
  {
    if y < h - 1 { RectAt(w, h - 1, x, y); }
  }

  /** Destination later in the buffer than the source, and the two rectangles
      overlap. */
  predicate BadOverlap(sx: nat, sy: nat, dx: nat, dy: nat, w: nat, h: nat)
  {
    && sy * WIDTH + sx < dy * WIDTH + dx
    && sx < dx + w && dx < sx + w && sy < dy + h && dy < sy + h
  }

  /** Those are exactly the rectangle copies that can go wrong. */
  lemma BadOverlapExact(sx: nat, sy: nat, dx: nat, dy: nat, w: nat, h: nat)
    requires sx + w <= WIDTH && dx + w <= WIDTH
    ensures BadOverlap(sx, sy, dx, dy, w, h) <==>
      CanClobber(sy * WIDTH + sx, dy * WIDTH + dx, Rect(w, h))
  {
    var s, d, offs := sy * WIDTH + sx, dy * WIDTH + dx, Rect(w, h);
    RectCells(w, h);
    if BadOverlap(sx, sy, dx, dy, w, h) {
      BadOverlapClobbers(sx, sy, dx, dy, w, h);
    }
    if CanClobber(s, d, offs) {
      var i: nat, j: nat :| Clobbers(s, d, offs, i, j);
      CellShift(sx, sy, dx, dy, offs[i], offs[j], w, h);
    }
  }

  lemma BadOverlapClobbers(sx: nat, sy: nat, dx: nat, dy: nat, w: nat, h: nat)
    requires sx + w <= WIDTH && dx + w <= WIDTH && BadOverlap(sx, sy, dx, dy, w, h)
    requires Increasing(Rect(w, h))
    ensures CanClobber(sy * WIDTH + sx, dy * WIDTH + dx, Rect(w, h))
  {
    var x := if dx < sx then sx - dx else 0;
    var i, j := |Rect(w, 0)| + x, |Rect(w, dy - sy)| + x + dx - sx;
    RectAt(w, h, x, 0);
    RectAt(w, h, x + dx - sx, dy - sy);
    ClobberOrder(Rect(w, h), i, j);
    assert Clobbers(sy * WIDTH + sx, dy * WIDTH + dx, Rect(w, h), i, j);
  }

  lemma ClobberOrder(offs: seq<nat>, i: nat, j: nat)
    requires Increasing(offs) && i < |offs| && j < |offs| && offs[i] < offs[j]
    ensures i < j
  {
  }

  lemma CellShift(sx: nat, sy: nat, dx: nat, dy: nat, o: nat, p: nat, w: nat, h: nat)
    requires sx + w <= WIDTH && dx + w <= WIDTH && o < p
    requires o % WIDTH < w && o / WIDTH < h && p % WIDTH < w && p / WIDTH < h
    requires dy * WIDTH + dx + o == sy * WIDTH + sx + p
    ensures BadOverlap(sx, sy, dx, dy, w, h)
  {
    assert o == WIDTH * (o / WIDTH) + o % WIDTH && p == WIDTH * (p / WIDTH) + p % WIDTH;
    assert dy + o / WIDTH == sy + p / WIDTH;
  }
}
