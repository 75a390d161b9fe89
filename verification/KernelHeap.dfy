/** The kernel heap: a first-fit allocator whose block headers are words of the
    heap array itself. Pointers are byte addresses; NULL is 0. */
module KernelHeap {
  import opened Common
  import opened HeapBlocks
  import opened HeapLayout

  /** (size + BLOCK_SIZE - 1) & ~(BLOCK_SIZE - 1), in 32-bit unsigned arithmetic. */
  function RoundUp(size: Word): Word
  {
    var sum := if size + 31 < 0x1_0000_0000 then size + 31 else size + 31 - 0x1_0000_0000;
    sum - sum % 32
  }

  /** The words a request is rounded to. */
  function Request(size: Word): nat { RoundUp(size) / 4 }

  /** Rounding does not wrap around. */
  predicate Roundable(size: Word) { size + 31 < 0x1_0000_0000 }

  /** A request that does not wrap gets at least what it asks for; one that does
      wrap is rounded to nothing. */
  lemma RoundUpBounds(size: Word)
    ensures RoundUp(size) == 4 * Request(size)
    ensures Roundable(size) ==> size <= 4 * Request(size) < size + 32
    ensures Roundable(size) && 0 < size ==> GRAIN <= Request(size)
    ensures !Roundable(size) ==> Request(size) == 0
  {
    var q := Units(size);
  }

  /** The whole units of a rounded request. */
  lemma Units(size: Word) returns (q: nat)
    ensures RoundUp(size) == 32 * q && Request(size) == 8 * q
    ensures var sum := if Roundable(size) then size + 31 else size + 31 - 0x1_0000_0000; 32 * q <= sum < 32 * q + 32
  {
    var sum := if Roundable(size) then size + 31 else size + 31 - 0x1_0000_0000;
    q := sum / 32;
    QuarterOf(RoundUp(size), q);
  }

  lemma QuarterOf(r: nat, q: nat)
    requires r == 32 * q
    ensures r / 4 == 8 * q
  {
  }

  /** So many words are whole 32-byte units. */
  predicate WholeUnits(words: nat) { 4 * words % 32 == 0 }

  /** `words` is the least number of whole units that holds `size` bytes. */
  predicate LeastUnits(words: nat, size: nat)
  {
    WholeUnits(words) && size <= 4 * words && forall fewer: nat :: fewer < words && WholeUnits(fewer) ==> 4 * fewer < size
  }

  /** Every rounded request is a multiple of 32 bytes, and the least that holds the
      size unless rounding wraps. */
  lemma RoundUpExact(size: Word, words: nat)
    ensures RoundUp(size) % 32 == 0
    ensures Roundable(size) ==> (LeastUnits(words, size) <==> words == Request(size))
  {
    RoundUpBounds(size);
    var r := Request(size);
    RoundUpWhole(size);
    if Roundable(size) {
      forall fewer: nat | fewer < r && WholeUnits(fewer) ensures 4 * fewer < size {
        UnitsApart(4 * fewer, 4 * r);
      }
      assert WholeUnits(r);
    }
  }

  lemma RoundUpWhole(size: Word)
    ensures RoundUp(size) % 32 == 0
  {
    var q := Units(size);
    WholeMultiple(RoundUp(size), q);
  }

  lemma WholeMultiple(r: nat, q: nat)
    requires r == 32 * q
    ensures r % 32 == 0
  {
  }

  lemma UnitsApart(a: nat, b: nat)
    requires a % 32 == 0 && b % 32 == 0 && a < b
    ensures a + 32 <= b
  {
  }

  /** The block that a request of n words gets: n words if the block found has more
      than 44 bytes over, a header and BLOCK_SIZE, and all of it otherwise. */
  lemma GrantExact(bs: seq<Block>, n: nat)
    requires FirstFit(bs, n) < |bs|
    ensures var i := FirstFit(bs, n); var over := 4 * bs[i].words - 4 * n;
      && Live(Allocate(bs, n)) == Live(bs)[PayloadOf(bs, i) := if over > 12 + 32 then n else bs[i].words]
      && |Allocate(bs, n)| == |bs| + if over > 12 + 32 then 1 else 0
  {
    var i := FirstFit(bs, n);
    AllocateLive(bs, n);
    if Splits(bs[i], n) { CutIsCut(bs, i, n); }
  }

  /** On a fresh heap two requests for 32 bytes get the blocks at bytes 12 and 56; a
      heap of 44 bytes holds exactly one. */
  lemma ThirtyTwoBytes(total: nat)
    requires 35 < total
    ensures var n := Request(32); var bs := OneBlock(total); var one := Allocate(bs, n);
      && FirstFit(bs, n) == 0 && 4 * PayloadOf(bs, 0) == 12
      && FirstFit(one, n) == 1 < |one| && 4 * PayloadOf(one, 1) == 56
    ensures FirstFit(OneBlock(11), Request(32)) == 0 && Allocate(OneBlock(11), Request(32)) == [Block(8, false)]
  {
    var n, bs := Request(32), OneBlock(total);
    assert n == 8;
    CutIsCut(bs, 0, n);
    var one := Allocate(bs, n);
    assert FirstFitFrom(one, n, 0) == FirstFitFrom(one, n, 1) == 1;
    assert Pos(one, 1) == Pos(one, 0) + Extent(one[0]);
  }

  /** An allocation leaves a block smaller than BLOCK_SIZE exactly when its
      rounding wraps and the block it takes is large enough to be split. */
  lemma MinimumKept(bs: seq<Block>, size: Word)
    requires AllAtLeast(bs, GRAIN) && 0 < size
    ensures var i := FirstFit(bs, Request(size));
      AllAtLeast(Allocate(bs, Request(size)), GRAIN) <==>
      Roundable(size) || i == |bs| || !Splits(bs[i], Request(size))
  {
    RoundUpBounds(size);
    if Roundable(size) {
      AllocateKeepsMinimum(bs, Request(size));
    } else {
      var i := FirstFit(bs, 0);
      if i < |bs| && Splits(bs[i], 0) {
        CutIsCut(bs, i, 0);
        assert Allocate(bs, 0)[i].words == 0;
      }
    }
  }

  /** The block that a request gets holds the bytes it asked for if and only if
      rounding the size does not wrap. */
  lemma GrantedEnough(bs: seq<Block>, size: Word)
    requires 0 < size && FirstFit(bs, Request(size)) < |bs|
    ensures var i := FirstFit(bs, Request(size));
      size <= 4 * Split(bs, i, Request(size))[i].words <==> Roundable(size)
  {
    RoundUpBounds(size);
    var i := FirstFit(bs, Request(size));
    SplitLayout(bs, i, Request(size));
    if !Roundable(size) && Splits(bs[i], 0) { CutIsCut(bs, i, 0); }
  }

  /** The largest size wraps: a fresh heap grants it, with a block of no bytes. */
  lemma WrappingRequestSucceeds(total: nat)
    requires HEADER + HEADER + GRAIN < total
    ensures var bs := OneBlock(total); var n := Request(0xFFFF_FFFF);
      FirstFit(bs, n) < |bs| && Split(bs, FirstFit(bs, n), n)[FirstFit(bs, n)].words == 0
  {
    RoundUpBounds(0xFFFF_FFFF);
    CutIsCut(OneBlock(total), 0, 0);
  }

  /** The block that krealloc's request is granted holds what is to be copied into
      it: rounding does not wrap, or nothing is copied, or the wrapped request gets
      a block too small to be split and large enough. */
  predicate CopyFits(bs: seq<Block>, p: nat, size: Word)
    requires p in Live(bs) && FirstFit(bs, Request(size)) < |bs|
  {
    var b := bs[FirstFit(bs, Request(size))];
    Roundable(size) || Live(bs)[p] == 0 || (!Splits(b, 0) && Live(bs)[p] <= b.words)
  }

  /** That is exact: the old contents fit if and only if it holds. */
  lemma MoveRoom(bs: seq<Block>, p: nat, size: Word)
    requires p in Live(bs) && 4 * Live(bs)[p] < size && FirstFit(bs, Request(size)) < |bs|
    ensures var i := FirstFit(bs, Request(size));
      Live(bs)[p] <= Split(bs, i, Request(size))[i].words <==> CopyFits(bs, p, size)
  {
    RoundUpBounds(size);
    var i := FirstFit(bs, Request(size));
    SplitLayout(bs, i, Request(size));
    if !Roundable(size) && Splits(bs[i], 0) { CutIsCut(bs, i, 0); }
  }

  /** krealloc copies only into the block it was granted. */
  predicate CopySafe(bs: seq<Block>, p: nat, size: Word)
    requires p in Live(bs)
  {
    size <= 4 * Live(bs)[p] || FirstFit(bs, Request(size)) == |bs| || CopyFits(bs, p, size)
  }

  /** One live block of w words, the rest of the heap free. */
  function OneLive(w: nat, rest: nat): seq<Block> { [Block(w, false), Block(rest, true)] }

  /** Reallocating that block to the largest size is not safe: the request is
      granted, and the place of the first word to be copied is the header of the
      free block behind the new one. */
  lemma WrappingReallocOverruns(w: nat, rest: nat)
    requires 0 < w && 4 * w < 0xFFFF_FFFF && HEADER + GRAIN < rest
    ensures var bs, n := OneLive(w, rest), Request(0xFFFF_FFFF); var after := Allocate(bs, n);
      && HEADER in Live(bs) && Live(bs)[HEADER] == w && !CopySafe(bs, HEADER, 0xFFFF_FFFF)
      && FirstFit(bs, n) == 1 && |after| == 3 && after[2].free
      && PayloadOf(after, 1) == Pos(after, 2)
  {
    var bs := OneLive(w, rest);
    RoundUpBounds(0xFFFF_FFFF);
    LiveHere(bs, 0);
    assert FirstFitFrom(bs, 0, 0) == FirstFitFrom(bs, 0, 1) == 1;
    CutIsCut(bs, 1, 0);
    assert Pos(Allocate(bs, 0), 2) == Pos(Allocate(bs, 0), 1) + Extent(Allocate(bs, 0)[1]);
  }

  /** 256 to the power k. */
  function Weight(k: nat): nat
    requires k < 4
  {
    if k == 0 then 1 else if k == 1 then 0x100 else if k == 2 then 0x1_0000 else 0x100_0000
  }

  /** Byte k of an object, little-endian. */
  function ByteOf(words: seq<Word>, k: nat): nat
    requires k / 4 < |words|
  {
    words[k/4] / Weight(k % 4) % 0x100
  }

  /** A word whose r low bytes have been set to 0. */
  function ClearLow(w: Word, r: nat): Word
    requires r < 4
  {
    w - w % Weight(r)
  }

  lemma ClearLowBytes(w: Word, r: nat, k: nat)
    requires r < 4 && k < 4
    ensures ClearLow(w, r) / Weight(k) % 0x100 == if k < r then 0 else w / Weight(k) % 0x100
  {
    if r == 1 {
      ClearLowByte(w, w / 0x100, k);
    } else if r == 2 {
      ClearLowHalf(w, w / 0x1_0000, k);
    } else if r == 3 {
      ClearLowThree(w, w / 0x100_0000, k);
    }
  }

  lemma ShiftedByte(x: nat)
    ensures x * 0x100 % 0x100 == 0 && x * 0x100 / 0x100 == x
  {
  }

  lemma NextBytes(x: nat)
    ensures x / 0x1_0000 == x / 0x100 / 0x100 && x / 0x100_0000 == x / 0x100 / 0x100 / 0x100
  {
  }

  lemma ClearLowByte(w: Word, q: nat, k: nat)
    requires q == w / 0x100 && k < 4
    ensures ClearLow(w, 1) / Weight(k) % 0x100 == if k < 1 then 0 else w / Weight(k) % 0x100
  {
    assert ClearLow(w, 1) == q * 0x100;
    ShiftedByte(q);
    NextBytes(w);
    NextBytes(q * 0x100);
  }

  lemma ClearLowHalf(w: Word, q: nat, k: nat)
    requires q == w / 0x1_0000 && k < 4
    ensures ClearLow(w, 2) / Weight(k) % 0x100 == if k < 2 then 0 else w / Weight(k) % 0x100
  {
    assert ClearLow(w, 2) == q * 0x100 * 0x100;
    ShiftedByte(q);
    ShiftedByte(q * 0x100);
    NextBytes(w);
    NextBytes(q * 0x100 * 0x100);
  }

  lemma ClearLowThree(w: Word, q: nat, k: nat)
    requires q == w / 0x100_0000 && k < 4
    ensures ClearLow(w, 3) / Weight(k) % 0x100 == if k < 3 then 0 else w / Weight(k) % 0x100
  {
    assert ClearLow(w, 3) == q * 0x100 * 0x100 * 0x100;
    ShiftedByte(q);
    ShiftedByte(q * 0x100);
    ShiftedByte(q * 0x100 * 0x100);
    NextBytes(w);
    NextBytes(q * 0x100 * 0x100 * 0x100);
  }

  /** Word j of a buffer whose first `size` bytes have been set to 0. */
  function ClearedWord(w: Word, size: nat, j: nat): Word
  {
    if j < size / 4 then 0 else if j == size / 4 then ClearLow(w, size % 4) else w
  }

  function Cleared(words: seq<Word>, size: nat): seq<Word>
  {
    seq(|words|, j requires 0 <= j < |words| => ClearedWord(words[j], size, j))
  }

  lemma ClearedFar(w: Word, size: nat, j: nat, n: nat)
    requires size <= 4 * n && n <= j
    ensures ClearedWord(w, size, j) == w
  {
  }

  /** Clearing `size` bytes from word `at` on stays within n words that hold them. */
  lemma ClearedOutside(m: seq<Word>, m': seq<Word>, at: nat, n: nat, size: nat)
    requires size <= 4 * n && |m'| == |m|
    requires forall j :: 0 <= j < |m| ==> m'[j] == if at <= j then ClearedWord(m[j], size, j - at) else m[j]
    ensures forall j :: 0 <= j < |m| && !(at <= j < at + n) ==> m'[j] == m[j]
  {
    forall j | 0 <= j < |m| && !(at <= j < at + n) ensures m'[j] == m[j] {
      if at <= j { ClearedFar(m[j], size, j - at, n); }
    }
  }

  lemma ClearedInside(m: seq<Word>, m': seq<Word>, at: nat, n: nat, size: nat)
    requires size <= 4 * n && |m'| == |m| && at + n <= |m|
    requires forall j :: 0 <= j < |m| ==> m'[j] == if at <= j then ClearedWord(m[j], size, j - at) else m[j]
    ensures m'[at..at+n] == Cleared(m[at..at+n], size)
  {
  }

  /** Exactly the first `size` bytes are 0, the others keep their value. */
  lemma ClearedBytes(words: seq<Word>, size: nat)
    requires size <= 4 * |words|
    ensures forall k :: 0 <= k < 4 * |words| ==>
      ByteOf(Cleared(words, size), k) == if k < size then 0 else ByteOf(words, k)
  {
    forall k | 0 <= k < 4 * |words|
      ensures ByteOf(Cleared(words, size), k) == if k < size then 0 else ByteOf(words, k)
    {
      ClearLowBytes(words[k/4], size % 4, k % 4);
      ClearedByte(words[k/4], size, k / 4, k % 4);
    }
  }

  lemma ClearedByte(w: Word, size: nat, j: nat, k: nat)
    requires k < 4
    requires ClearLow(w, size % 4) / Weight(k) % 0x100 == if k < size % 4 then 0 else w / Weight(k) % 0x100
    ensures ClearedWord(w, size, j) / Weight(k) % 0x100 == if 4 * j + k < size then 0 else w / Weight(k) % 0x100
  {
  }

  class Heap {
    const base: Word
    const mem: array<Word>
    var head: Word
    ghost var chain: seq<Block>

    ghost predicate Valid()
      reads this, mem
    {
      && Linked()
      && Coalesced(chain)
    }

    ghost predicate Linked()
      reads this, mem
    {
      && Placed(base, mem.Length)
      && head == base
      && Encodes(base, mem[..], chain)
    }

    /** Live payloads by word offset, with their contents. */
    ghost function Objs(): map<nat, seq<Word>>
      reads this, mem
    {
      Objects(mem[..], chain)
    }

    predicate InHeap(ptr: Word)
    {
      base <= ptr && (ptr - base) % 4 == 0
    }

    /** Heap word that ptr addresses. */
    function WordOf(ptr: Word): nat
      requires InHeap(ptr)
    {
      (ptr - base) / 4
    }

    lemma AddressOf(k: nat)
      requires base + 4 * k < 0x1_0000_0000
      ensures InHeap(base + 4 * k) && WordOf(base + 4 * k) == k
    {
      assert (base + 4 * k - base) % 4 == 0;
    }

    /** ptr was returned by an allocation and has not been freed since. */
    ghost predicate Owned(ptr: Word)
      reads this, mem
    {
      InHeap(ptr) && WordOf(ptr) in Objs()
    }

    /** n words were taken from the first block that fits: one object was added
        at ptr and no other was touched. */
    ghost predicate Granted(before: seq<Block>, objs: map<nat, seq<Word>>, ptr: Word, n: nat)
      reads this, mem
    {
      && FirstFit(before, n) < |before|
      && chain == Allocate(before, n)
      && ptr == base + 4 * PayloadOf(before, FirstFit(before, n)) != NULL
      && Added(objs, Objs(), PayloadOf(before, FirstFit(before, n)), n)
    }

    lemma GrantedIsOwned(before: seq<Block>, objs: map<nat, seq<Word>>, ptr: Word, n: nat)
      requires Granted(before, objs, ptr, n)
      ensures Owned(ptr) && WordOf(ptr) == PayloadOf(before, FirstFit(before, n))
    {
      AddressOf(PayloadOf(before, FirstFit(before, n)));
    }

    lemma GrantedWords(before: seq<Block>, objs: map<nat, seq<Word>>, ptr: Word, n: nat)
      requires Valid() && Granted(before, objs, ptr, n)
      ensures Owned(ptr) && |WordsAt(ptr)| == Split(before, FirstFit(before, n), n)[FirstFit(before, n)].words
    {
      GrantedIsOwned(before, objs, ptr, n);
      AllocateLive(before, n);
      ObjectInside(base, mem[..], chain, WordOf(ptr));
    }

    /** Freeing what was just allocated restores the chain block for block. */
    lemma KfreeUndoesKmalloc(before: seq<Block>, objs: map<nat, seq<Word>>, ptr: Word, n: nat)
      requires Granted(before, objs, ptr, n) && Coalesced(before)
      ensures Owned(ptr) && Release(chain, IndexOf(chain, WordOf(ptr))) == before
    {
      GrantedIsOwned(before, objs, ptr, n);
      ReleaseUndoesAllocate(before, n);
      IndexUnique(chain, FirstFit(before, n));
    }

    // memory_init
    constructor (words: nat, address: Word)
      requires Placed(address, words) && HEADER <= words
      ensures Valid() && fresh(mem)
      ensures mem.Length == words && base == address
      ensures chain == [Block(words - HEADER, true)]
      ensures Objs() == map[]
    {
      base := address;
      mem := new Word[words];
      head := address;
      chain := [Block(words - HEADER, true)];
      new;
      mem[0] := 4 * (words - HEADER);
      mem[1] := 1;
      mem[2] := NULL;
      assert Pos(chain, 1) == Pos(chain, 0) + Extent(chain[0]);
      assert BlockAt(base, mem[..], chain, 0);
      assert LiveUpTo(chain, 1) == LiveUpTo(chain, 0);
    }

    method FindBlock(size: Word, ghost n: nat) returns (block: Word)
      requires Linked() && size == 4 * n
      ensures var i := FirstFit(chain, n);
        block == if i == |chain| then NULL else base + 4 * Pos(chain, i)
    {
      block := head;
      ghost var i := 0;
      while block != NULL
        invariant i <= |chain|
        invariant block == Link(base, mem.Length, Pos(chain, i))
        invariant i == |chain| <==> block == NULL
        invariant FirstFitFrom(chain, n, i) == FirstFit(chain, n)
        decreases |chain| - i
      {
        EncodesHeader(base, mem[..], chain, i);
        AddressOf(Pos(chain, i));
        var at := WordOf(block);
        if mem[at+1] != 0 && mem[at] >= size {
          return;
        }
        block := mem[at+2];
        i := i + 1;
      }
    }

    method SplitBlock(block: Word, size: Word, ghost at: nat, ghost n: nat)
      requires Placed(base, mem.Length) && block == base + 4 * at && size == 4 * n
      requires SplitReady(mem[..], at, n)
      modifies mem
      ensures mem[..] == SplitMem(base, old(mem[..]), at, n)
    {
      AddressOf(at);
      var b := WordOf(block);
      if mem[b] - size > 12 + 32 {
        ghost var m := mem[..];
        var newBlock := block + 12 + size;
        AddressOf(at + HEADER + n);
        var nb := WordOf(newBlock);
        mem[nb] := mem[b] - size - 12;
        mem[nb+1] := 1;
        mem[nb+2] := mem[b+2];
        assert mem[..] == StoreRemainder(m, at, n);
        ghost var m3 := mem[..];
        mem[b] := size;
        mem[b+2] := newBlock;
        assert mem[..] == StoreSplit(base, m3, at, n);
      }
    }

    /** The found block is split if it is large enough and marked used. */
    method Take(block: Word, size: Word, ghost n: nat) returns (ptr: Word)
      requires Valid() && size == 4 * n
      requires FirstFit(chain, n) < |chain| && block == base + 4 * Pos(chain, FirstFit(chain, n))
      modifies this`chain, mem
      ensures Valid()
      ensures Granted(old(chain), old(Objs()), ptr, n)
    {
      ghost var before, m0 := chain, mem[..];
      TakeEncodes(base, m0, before, n);
      AllocateKeepsCoalesced(before, n);
      AddressOf(Pos(before, FirstFit(before, n)));
      SplitBlock(block, size, Pos(before, FirstFit(before, n)), n);
      ghost var m1 := mem[..];
      var at := WordOf(block);
      mem[at+1] := 0;
      assert mem[..] == Store(m1, at + 1, 0);
      chain := Allocate(before, n);
      ptr := block + 12;
    }

    /** What kmalloc_flags does while it holds the heap lock. */
    method Grant(size: Word, ghost n: nat) returns (ptr: Word)
      requires Valid() && size == 4 * n
      modifies this`chain, mem
      ensures Valid()
      ensures ptr == NULL <==> !HasGap(old(chain), n)
      ensures ptr == NULL ==> chain == old(chain) && mem[..] == old(mem[..])
      ensures ptr != NULL ==> Granted(old(chain), old(Objs()), ptr, n)
    {
      FitsIffGap(chain, n);
      var block := FindBlock(size, n);
      if block != NULL {
        ptr := Take(block, size, n);
      } else {
        ptr := NULL;
      }
    }

    method KmallocFlags(size: Word, flags: int) returns (ptr: Word)
      requires Valid()
      modifies this`chain, mem
      ensures Valid()
      // fails exactly when no gap between live blocks has room
      ensures ptr == NULL <==> size == 0 || !HasGap(old(chain), Request(size))
      ensures ptr == NULL ==> chain == old(chain) && mem[..] == old(mem[..])
      ensures ptr != NULL ==> Granted(old(chain), old(Objs()), ptr, Request(size)) && Owned(ptr)
      // that is, no gap for a header and the least whole number of 32-byte units
      ensures Roundable(size) && 0 < size ==> forall n :: LeastUnits(n, size) ==> (ptr == NULL <==> !HasGap(old(chain), n))
      // a granted block holds the bytes asked for exactly if rounding does not wrap
      ensures ptr != NULL ==> (size <= 4 * |WordsAt(ptr)| <==> Roundable(size))
    {
      if size == 0 {
        return NULL;
      }
      RoundUpBounds(size);
      forall n | Roundable(size) && LeastUnits(n, size) ensures n == Request(size) { RoundUpExact(size, n); }
      ptr := Grant(RoundUp(size), Request(size));
      if ptr != NULL {
        GrantedWords(old(chain), old(Objs()), ptr, Request(size));
        GrantedEnough(old(chain), size);
      }
    }

    /** The body of the merging branch. */
    method Absorb(at: nat, next: nat, ghost i: nat)
      requires Linked() && Seam(chain, i)
      requires at == Pos(chain, i) && next == Pos(chain, i + 1)
      modifies this`chain, mem
      ensures Linked()
      ensures chain == FuseAt(old(chain), i) && Pos(chain, i) == at
      ensures Objs() == old(Objs())
    {
      ghost var m0 := mem[..];
      AbsorbEncodes(base, m0, chain, i);
      AbsorbObjects(m0, chain, i, AbsorbMem(m0, at, next));
      mem[at] := mem[at] + 12 + mem[next];
      mem[at+2] := mem[next+2];
      assert mem[..] == AbsorbMem(m0, at, next);
      chain := FuseAt(chain, i);
    }

    /** What the header of block i says. */
    lemma HeaderView(i: nat)
      requires Linked() && i < |chain|
      ensures Pos(chain, i) + 2 < mem.Length
      ensures mem[Pos(chain, i) + 1] != 0 <==> chain[i].free
      ensures mem[Pos(chain, i) + 2] == if i + 1 == |chain| then NULL else base + 4 * Pos(chain, i + 1)
      ensures InHeap(base + 4 * Pos(chain, i)) && WordOf(base + 4 * Pos(chain, i)) == Pos(chain, i)
    {
      EncodesHeader(base, mem[..], chain, i);
      AddressOf(Pos(chain, i));
    }

    method MergeBlocks()
      requires Linked()
      modifies this`chain, mem
      ensures Linked()
      ensures chain == Merge(old(chain))
      ensures Objs() == old(Objs())
    {
      var block := head;
      ghost var i := 0;
      HeaderView(0);
      while block != NULL && mem[WordOf(block) + 2] != NULL
        invariant Linked() && AtBlock(block, i)
        invariant MergeFrom(chain, i) == Merge(old(chain))
        invariant Objs() == old(Objs())
        decreases |chain| - i
      {
        block, i := MergeOrMove(block, i);
      }
      HeaderView(i);
    }

    /** block is the address of block i. */
    ghost predicate AtBlock(block: Word, i: nat)
      reads this, mem
    {
      && i < |chain| && block == base + 4 * Pos(chain, i)
      && InHeap(block) && WordOf(block) == Pos(chain, i) && Pos(chain, i) + 2 < mem.Length
    }

    /** One pass of the merging loop. */
    method MergeOrMove(block: Word, ghost i: nat) returns (next: Word, ghost j: nat)
      requires Linked() && AtBlock(block, i) && mem[Pos(chain, i) + 2] != NULL
      modifies this`chain, mem
      ensures Linked() && AtBlock(next, j) && |chain| - j < old(|chain|) - i
      ensures MergeFrom(chain, j) == MergeFrom(old(chain), i)
      ensures Objs() == old(Objs())
    {
      HeaderView(i);
      HeaderView(i + 1);
      var at := WordOf(block);
      next := mem[at+2];
      j := i + 1;
      if mem[at+1] != 0 && mem[WordOf(next)+1] != 0 {
        Absorb(at, WordOf(next), i);
        next := block;
        j := i;
      }
    }

    method Kfree(ptr: Word)
      requires Valid() && (ptr == NULL || Owned(ptr))
      modifies this`chain, mem
      ensures Valid()
      ensures ptr == NULL ==> chain == old(chain) && mem[..] == old(mem[..])
      ensures ptr != NULL ==>
        && chain == Release(old(chain), IndexOf(old(chain), WordOf(ptr)))
        && Objs() == old(Objs()) - {WordOf(ptr)}
    {
      if ptr == NULL {
        return;
      }
      MarkFree(ptr);
      MergeCoalesces(chain, 0);
      MergeBlocks();
    }

    method MarkFree(ptr: Word)
      requires Linked() && Owned(ptr)
      modifies this`chain, mem
      ensures Linked()
      ensures chain == SetFree(old(chain), IndexOf(old(chain), WordOf(ptr)), true)
      ensures Objs() == old(Objs()) - {WordOf(ptr)}
    {
      ghost var i, m0 := IndexOf(chain, WordOf(ptr)), mem[..];
      FlagEncodes(base, m0, chain, i, true);
      MarkFreeObjects(m0, chain, i);
      var at := WordOf(ptr - 12);
      mem[at+1] := 1;
      assert mem[..] == Store(m0, at + 1, 1);
      chain := SetFree(chain, i, true);
    }

    /** The words of the object at ptr. */
    ghost function WordsAt(ptr: Word): seq<Word>
      requires Owned(ptr)
      reads this, mem
    {
      Objs()[WordOf(ptr)]
    }

    /** What krealloc reads outside the lock: the payload size in bytes. */
    lemma SizeView(ptr: Word)
      requires Valid() && Owned(ptr)
      ensures 12 < ptr && InHeap(ptr - 12) && HEADER <= WordOf(ptr) < mem.Length + HEADER
      ensures mem[WordOf(ptr) - HEADER] == 4 * |WordsAt(ptr)|
      ensures WordOf(ptr - 12) == WordOf(ptr) - HEADER && mem[WordOf(ptr) - HEADER] / 4 == |WordsAt(ptr)|
      ensures WordOf(ptr) + |WordsAt(ptr)| <= mem.Length
      ensures WordsAt(ptr) == mem[..][WordOf(ptr)..WordOf(ptr) + |WordsAt(ptr)|]
    {
      var i := IndexOf(chain, WordOf(ptr));
      EncodesHeader(base, mem[..], chain, i);
      ObjectInside(base, mem[..], chain, WordOf(ptr));
    }

    /** memcpy of whole words between two places of the heap. */
    method CopyWords(dst: nat, src: nat, words: nat)
      requires src + words <= mem.Length && dst + words <= mem.Length
      requires src + words <= dst || dst + words <= src
      modifies mem
      ensures SameOutside(old(mem[..]), mem[..], dst, dst + words)
      ensures mem[..][dst..dst+words] == old(mem[..])[src..src+words]
    {
      ghost var m0 := mem[..];
      var k := 0;
      while k < words
        invariant k <= words
        invariant SameOutside(m0, mem[..], dst, dst + k)
        invariant mem[..][dst..dst+k] == m0[src..src+k]
      {
        assert mem[..][src+k] == m0[src+k];
        ghost var m1 := mem[..];
        mem[dst+k] := mem[src+k];
        assert mem[..][dst..dst+k+1] == m1[dst..dst+k] + [m0[src+k]];
        assert m0[src..src+k+1] == m0[src..src+k] + [m0[src+k]];
        k := k + 1;
      }
    }

    lemma ObjectsApart(p: nat, q: nat)
      requires Valid() && p in Objs() && q in Objs() && p != q
      ensures p + |Objs()[p]| <= q || q + |Objs()[q]| <= p
    {
      if p < q { ObjectsDisjoint(base, mem[..], chain, p, q); } else { ObjectsDisjoint(base, mem[..], chain, q, p); }
    }

    /** memcpy of a whole object to the start of another. */
    method CopyObject(dst: Word, src: Word, size: Word)
      requires Valid() && Owned(src) && Owned(dst) && WordOf(src) != WordOf(dst)
      requires 4 * |WordsAt(src)| == size <= 4 * |WordsAt(dst)|
      modifies mem
      ensures Valid()
      ensures Objs() == Overwritten(old(Objs()), WordOf(dst), old(WordsAt(src)))
    {
      CopyPayload(WordOf(dst), WordOf(src), size / 4);
    }

    method CopyPayload(q: nat, p: nat, words: nat)
      requires Valid() && p in Objs() && q in Objs() && p != q && words == |Objs()[p]| <= |Objs()[q]|
      modifies mem
      ensures Valid()
      ensures Objs() == Overwritten(old(Objs()), q, old(Objs()[p]))
    {
      ObjectInside(base, mem[..], chain, p);
      ObjectInside(base, mem[..], chain, q);
      ObjectsApart(p, q);
      ghost var m0, w := mem[..], Objs()[p];
      CopyWords(q, p, words);
      ObjectsCopied(base, m0, mem[..], chain, q, w);
    }

    method Krealloc(ptr: Word, size: Word) returns (ret: Word)
      requires Valid() && (ptr == NULL || (Owned(ptr) && (size == 0 || CopySafe(chain, WordOf(ptr), size))))
      modifies this`chain, mem
      ensures Valid()
      // NULL: an allocation
      ensures ptr == NULL ==>
        && (ret == NULL <==> size == 0 || !HasGap(old(chain), Request(size)))
        && (ret == NULL ==> chain == old(chain) && mem[..] == old(mem[..]))
        && (ret != NULL ==> Granted(old(chain), old(Objs()), ret, Request(size)))
      // size 0: a release
      ensures ptr != NULL && size == 0 ==>
        && ret == NULL && Objs() == old(Objs()) - {WordOf(ptr)}
        && chain == Release(old(chain), IndexOf(old(chain), WordOf(ptr)))
      // large enough already: nothing happens
      ensures ptr != NULL && 0 < size <= 4 * old(|WordsAt(ptr)|) ==>
        ret == ptr && chain == old(chain) && mem[..] == old(mem[..])
      // otherwise all or nothing
      ensures ptr != NULL && size > 4 * old(|WordsAt(ptr)|) ==>
        && (ret == NULL <==> !HasGap(old(chain), Request(size)))
        && (ret == NULL ==> chain == old(chain) && mem[..] == old(mem[..]))
        && (ret != NULL ==> Owned(ret) && Moved(old(Objs()), Objs(), WordOf(ptr), WordOf(ret), Request(size)))
      // in all, one operation on the chain
      ensures ptr != NULL && 0 < size ==>
        var o := Resize(WordOf(ptr), (size + 3) / 4, Request(size));
        Permitted(old(chain), o) && chain == Performed(old(chain), o)
    {
      if ptr == NULL {
        ret := KmallocFlags(size, 1);
        return;
      }
      if size == 0 {
        Kfree(ptr);
        return NULL;
      }
      ret := ResizeObject(ptr, size);
    }

    method ResizeObject(ptr: Word, size: Word) returns (ret: Word)
      requires Valid() && Owned(ptr) && 0 < size && CopySafe(chain, WordOf(ptr), size)
      modifies this`chain, mem
      ensures Valid()
      ensures size <= 4 * old(|WordsAt(ptr)|) ==> ret == ptr && chain == old(chain) && mem[..] == old(mem[..])
      ensures size > 4 * old(|WordsAt(ptr)|) ==>
        && (ret == NULL <==> !HasGap(old(chain), Request(size)))
        && (ret == NULL ==> chain == old(chain) && mem[..] == old(mem[..]))
        && (ret != NULL ==> Owned(ret) && Moved(old(Objs()), Objs(), WordOf(ptr), WordOf(ret), Request(size)))
      ensures chain == Performed(old(chain), Resize(WordOf(ptr), (size + 3) / 4, Request(size)))
    {
      SizeView(ptr);
      FitsIffGap(chain, Request(size));
      ResizeCases(chain, WordOf(ptr), size);
      ObjectInside(base, mem[..], chain, WordOf(ptr));
      if mem[WordOf(ptr - 12)] >= size {
        return ptr;
      }
      ret := Grow(ptr, size);
    }

    /** krealloc's branches are those of the operation. */
    lemma ResizeCases(bs: seq<Block>, p: nat, size: Word)
      requires p in Live(bs)
      ensures var n := Request(size); var o := Resize(p, (size + 3) / 4, n);
        Performed(bs, o) ==
          if size <= 4 * Live(bs)[p] || FirstFit(bs, n) == |bs| then bs
          else (AllocateLive(bs, n); Release(Allocate(bs, n), IndexOf(Allocate(bs, n), p)))
    {
    }

    /** The contents of src are copied to dst, and src is freed. */
    method Transfer(dst: Word, src: Word, size: Word)
      requires Valid() && Owned(src) && Owned(dst) && WordOf(src) != WordOf(dst)
      requires 4 * |WordsAt(src)| < size && |WordsAt(src)| <= |WordsAt(dst)|
      modifies this`chain, mem
      ensures Valid()
      ensures Objs() == Overwritten(old(Objs()), WordOf(dst), old(WordsAt(src))) - {WordOf(src)}
      ensures chain == Release(old(chain), IndexOf(old(chain), WordOf(src)))
    {
      SizeView(src);
      var oldSize := mem[WordOf(src - 12)];
      CopyObject(dst, src, if oldSize < size then oldSize else size);
      Kfree(src);
    }

    /** The moving branch of krealloc: allocate, copy, free. */
    method Grow(ptr: Word, size: Word) returns (ret: Word)
      requires Valid() && Owned(ptr) && CopySafe(chain, WordOf(ptr), size)
      requires size > 4 * |WordsAt(ptr)|
      modifies this`chain, mem
      ensures Valid()
      ensures ret == NULL <==> !HasGap(old(chain), Request(size))
      ensures ret == NULL ==> chain == old(chain) && mem[..] == old(mem[..])
      ensures ret != NULL ==> Owned(ret) && Moved(old(Objs()), Objs(), WordOf(ptr), WordOf(ret), Request(size))
      ensures ret != NULL ==>
        var granted := Allocate(old(chain), Request(size));
        WordOf(ptr) in Live(granted) && chain == Release(granted, IndexOf(granted, WordOf(ptr)))
    {
      ghost var n, p, before := Request(size), WordOf(ptr), Objs();
      ObjectInside(base, mem[..], chain, p);
      ret := KmallocFlags(size, 1);
      if ret != NULL {
        GrantedWords(old(chain), before, ret, n);
        MoveRoom(old(chain), p, size);
        GrantedIsOwned(old(chain), before, ret, n);
        assert p in Objs() && Objs()[p] == before[p];
        ghost var granted := Objs();
        Transfer(ret, ptr, size);
        CopiedIsMoved(before, granted, Objs(), p, WordOf(ret), n);
      }
    }

    /** memset of `size` bytes to 0, from word `at`. */
    method ClearBytes(at: nat, size: Word)
      requires at + (size + 3) / 4 <= mem.Length
      modifies mem
      ensures forall j :: 0 <= j < mem.Length ==>
        mem[..][j] == if at <= j then ClearedWord(old(mem[..])[j], size, j - at) else old(mem[..])[j]
    {
      ghost var m0 := mem[..];
      var whole, rest := size / 4, size % 4;
      var k := 0;
      while k < whole
        invariant k <= whole
        invariant forall j :: 0 <= j < mem.Length ==> mem[..][j] == if at <= j < at + k then 0 else m0[j]
      {
        mem[at+k] := 0;
        k := k + 1;
      }
      if rest != 0 {
        mem[at+whole] := ClearLow(mem[at+whole], rest);
      }
    }

    /** memset of the first `size` bytes of an object to 0. */
    method ClearObject(ptr: Word, size: Word)
      requires Valid() && Owned(ptr) && size <= 4 * |WordsAt(ptr)|
      modifies mem
      ensures Valid()
      ensures Objs() == old(Objs())[WordOf(ptr) := Cleared(old(WordsAt(ptr)), size)]
    {
      SizeView(ptr);
      ghost var m0, w := mem[..], WordsAt(ptr);
      ClearBytes(WordOf(ptr), size);
      ghost var at, m' := WordOf(ptr), mem[..];
      ClearedOutside(m0, m', at, |w|, size);
      ClearedInside(m0, m', at, |w|, size);
      ObjectsCopied(base, m0, m', chain, at, Cleared(w, size));
      assert Cleared(w, size) + w[|w|..] == Cleared(w, size);
    }

    method Kzalloc(size: Word) returns (ptr: Word)
      // by GrantedEnough, memset stays inside a granted block exactly if this holds
      requires Valid() && (Roundable(size) || !HasGap(chain, Request(size)))
      modifies this`chain, mem
      ensures Valid()
      ensures ptr == NULL <==> size == 0 || !HasGap(old(chain), Request(size))
      ensures ptr == NULL ==> chain == old(chain) && mem[..] == old(mem[..])
      ensures ptr != NULL ==>
        && Owned(ptr) && Added(old(Objs()), Objs(), WordOf(ptr), Request(size))
        && chain == Allocate(old(chain), Request(size))
        && size <= 4 * |WordsAt(ptr)|
        && forall k :: 0 <= k < size ==> ByteOf(WordsAt(ptr), k) == 0
    {
      ghost var before := Objs();
      ptr := KmallocFlags(size, 1);
      if ptr != NULL {
        GrantedIsOwned(old(chain), before, ptr, Request(size));
        ghost var w := WordsAt(ptr);
        ClearObject(ptr, size);
        ClearedBytes(w, size);
      }
    }
  }
}
