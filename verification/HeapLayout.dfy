/** How a chain of blocks is stored in the words of the heap: block headers live
    inside the heap itself and are linked through absolute addresses. */
module HeapLayout {
  import opened Common
  import opened HeapBlocks

  const NULL: Word := 0

  /** The byte address of heap word `at`; the end of the heap is the NULL link. */
  function Link(base: nat, total: nat, at: nat): nat
  {
    if at == total then NULL else base + 4 * at
  }

  /** The heap lies in the 32-bit address space, not at address 0. */
  predicate Placed(base: nat, total: nat)
  {
    0 < base && base + 4 * total < 0x1_0000_0000
  }

  function Flag(free: bool): Word { if free then 1 else 0 }

  predicate HeaderAt(base: nat, m: seq<Word>, at: nat, b: Block)
  {
    && at + Extent(b) <= |m|
    && m[at] == 4 * b.words
    && m[at+1] == Flag(b.free)
    && m[at+2] == Link(base, |m|, at + Extent(b))
  }

  predicate BlockAt(base: nat, m: seq<Word>, bs: seq<Block>, i: nat)
    requires i < |bs|
  {
    HeaderAt(base, m, Pos(bs, i), bs[i])
  }

  /** The chain that starts at the heap's first word is bs, and tiles the heap:
      each header is followed directly by the next, the last block ends the heap. */
  predicate Encodes(base: nat, m: seq<Word>, bs: seq<Block>)
  {
    && 0 < |bs| && Total(bs) == |m|
    && forall i :: 0 <= i < |bs| ==> BlockAt(base, m, bs, i)
  }

  /** m and m' differ at most in words [from, to). */
  predicate SameOutside(m: seq<Word>, m': seq<Word>, from: nat, to: nat)
  {
    && |m| == |m'|
    && forall k :: 0 <= k < |m| && !(from <= k < to) ==> m'[k] == m[k]
  }

  function Store(m: seq<Word>, k: nat, v: Word): (r: seq<Word>)
    requires k < |m|
  {
    m[k := v]
  }

  /** Storing what is there changes nothing. */
  lemma StoreSame(m: seq<Word>, k: nat, v: Word)
    requires k < |m| && m[k] == v
    ensures Store(m, k, v) == m
  {
  }

  /** A store is undone by storing the old value. */
  lemma StoreBack(m: seq<Word>, k: nat, u: Word, v: Word)
    requires k < |m| && m[k] == v
    ensures Store(Store(m, k, u), k, v) == m
  {
  }

  // ---- Chains in memory ---------------------------------------------------

  lemma EncodesHeader(base: nat, m: seq<Word>, bs: seq<Block>, i: nat)
    requires Encodes(base, m, bs) && i < |bs|
    ensures HeaderAt(base, m, Pos(bs, i), bs[i])
    ensures Pos(bs, i + 1) == Pos(bs, i) + Extent(bs[i]) <= |m|
    ensures i + 1 == |bs| <==> Pos(bs, i + 1) == |m|
  {
    assert BlockAt(base, m, bs, i);
    if i + 1 < |bs| { PosMonotone(bs, i + 1, |bs|); }
  }

  lemma HeaderKept(base: nat, m: seq<Word>, m': seq<Word>, at: nat, b: Block, from: nat, to: nat)
    requires HeaderAt(base, m, at, b) && SameOutside(m, m', from, to)
    requires at + HEADER <= from || to <= at
    ensures HeaderAt(base, m', at, b)
  {
  }

  /** A block whose words were not touched is still there. */
  lemma BlockKept(base: nat, m: seq<Word>, m': seq<Word>, bs: seq<Block>, i: nat, j: nat)
    requires Encodes(base, m, bs) && i < |bs| && j < |bs| && i != j
    requires SameOutside(m, m', Pos(bs, i), Pos(bs, i) + Extent(bs[i]))
    ensures HeaderAt(base, m', Pos(bs, j), bs[j])
  {
    var at := Pos(bs, i);
    EncodesHeader(base, m, bs, j);
    if i < j { PosMonotone(bs, i, j); } else { PosMonotone(bs, j, i); }
    HeaderKept(base, m, m', Pos(bs, j), bs[j], at, at + Extent(bs[i]));
  }

  /** Rewriting one block's words into a header for another block of the same
      length changes the chain at that block only. */
  lemma ReplaceEncodes(base: nat, m: seq<Word>, bs: seq<Block>, i: nat, m': seq<Word>, b: Block)
    requires Encodes(base, m, bs) && i < |bs| && b.words == bs[i].words
    requires SameOutside(m, m', Pos(bs, i), Pos(bs, i) + Extent(bs[i]))
    requires HeaderAt(base, m', Pos(bs, i), b)
    ensures Encodes(base, m', bs[i := b])
  {
    var bs' := bs[i := b];
    PosSame(bs, bs', |bs|);
    forall j | 0 <= j < |bs'| ensures BlockAt(base, m', bs', j) {
      PosSame(bs, bs', j);
      if j != i { BlockKept(base, m, m', bs, i, j); }
    }
  }

  /** Writing two headers into a block's words cuts it in two. */
  lemma CutEncodes(base: nat, m: seq<Word>, bs: seq<Block>, i: nat, m': seq<Word>, bs': seq<Block>)
    requires Encodes(base, m, bs) && IsCut(bs, i, bs')
    requires SameOutside(m, m', Pos(bs, i), Pos(bs, i) + Extent(bs[i]))
    requires HeaderAt(base, m', Pos(bs, i), bs'[i])
    requires HeaderAt(base, m', Pos(bs, i) + Extent(bs'[i]), bs'[i+1])
    ensures Encodes(base, m', bs')
  {
    PosCut(bs, i, bs', |bs|);
    forall j | 0 <= j < |bs'| ensures BlockAt(base, m', bs', j) {
      if j <= i {
        PosCut(bs, i, bs', j);
        if j < i { BlockKept(base, m, m', bs, i, j); }
      } else {
        PosCut(bs, i, bs', j - 1);
        if j > i + 1 { BlockKept(base, m, m', bs, i, j - 1); }
      }
    }
  }

  /** Writing one header over two neighbouring blocks makes them one. */
  lemma FuseEncodes(base: nat, m: seq<Word>, bs': seq<Block>, i: nat, m': seq<Word>, bs: seq<Block>)
    requires Encodes(base, m, bs') && IsCut(bs, i, bs')
    requires SameOutside(m, m', Pos(bs, i), Pos(bs, i) + Extent(bs[i]))
    requires HeaderAt(base, m', Pos(bs, i), bs[i])
    ensures Encodes(base, m', bs)
  {
    PosCut(bs, i, bs', |bs|);
    forall j | 0 <= j < |bs| ensures BlockAt(base, m', bs, j) {
      if j < i {
        BlockBefore(base, m, bs', i, m', bs, j);
      } else if j > i {
        BlockBehind(base, m, bs', i, m', bs, j);
      }
    }
  }

  lemma BlockBefore(base: nat, m: seq<Word>, bs': seq<Block>, i: nat, m': seq<Word>, bs: seq<Block>, j: nat)
    requires Encodes(base, m, bs') && IsCut(bs, i, bs') && j < i
    requires SameOutside(m, m', Pos(bs, i), Pos(bs, i) + Extent(bs[i]))
    ensures BlockAt(base, m', bs, j)
  {
    PosCut(bs, i, bs', j);
    EncodesHeader(base, m, bs', j);
    PosMonotone(bs, j, i);
    HeaderKept(base, m, m', Pos(bs, j), bs[j], Pos(bs, i), Pos(bs, i) + Extent(bs[i]));
  }

  lemma BlockBehind(base: nat, m: seq<Word>, bs': seq<Block>, i: nat, m': seq<Word>, bs: seq<Block>, j: nat)
    requires Encodes(base, m, bs') && IsCut(bs, i, bs') && i < j < |bs|
    requires SameOutside(m, m', Pos(bs, i), Pos(bs, i) + Extent(bs[i]))
    ensures BlockAt(base, m', bs, j)
  {
    PosCut(bs, i, bs', j);
    EncodesHeader(base, m, bs', j + 1);
    PosMonotone(bs, i, j);
    HeaderKept(base, m, m', Pos(bs, j), bs[j], Pos(bs, i), Pos(bs, i) + Extent(bs[i]));
  }

  // ---- The stores of the allocator ----------------------------------------

  /** A store to a block's free flag. */
  lemma FlagEncodes(base: nat, m: seq<Word>, bs: seq<Block>, i: nat, free: bool)
    requires Encodes(base, m, bs) && i < |bs|
    ensures Pos(bs, i) + 1 < |m|
    ensures Encodes(base, Store(m, Pos(bs, i) + 1, Flag(free)), SetFree(bs, i, free))
  {
    EncodesHeader(base, m, bs, i);
    ReplaceEncodes(base, m, bs, i, Store(m, Pos(bs, i) + 1, Flag(free)), bs[i].(free := free));
  }

  /** A store into the payload of a block, live or free. */
  lemma PayloadEncodes(base: nat, m: seq<Word>, bs: seq<Block>, i: nat, k: nat, v: Word)
    requires Encodes(base, m, bs) && i < |bs| && k < bs[i].words
    ensures PayloadOf(bs, i) + k < |m|
    ensures Encodes(base, Store(m, PayloadOf(bs, i) + k, v), bs)
  {
    EncodesHeader(base, m, bs, i);
    ReplaceEncodes(base, m, bs, i, Store(m, PayloadOf(bs, i) + k, v), bs[i]);
    assert bs[i := bs[i]] == bs;
  }

  /** The stores to `size` and `next` that make a block n words long. */
  function StoreSplit(base: nat, m: seq<Word>, at: nat, n: nat): seq<Word>
    requires at + 2 < |m| && 4 * n < 0x1_0000_0000 && base + 4 * (at + HEADER + n) < 0x1_0000_0000
  {
    Store(Store(m, at, 4 * n), at + 2, base + 4 * (at + HEADER + n))
  }

  lemma SplitHeaders(base: nat, m: seq<Word>, at: nat, b: Block, n: nat)
    requires Placed(base, |m|) && HeaderAt(base, m, at, b) && n + HEADER <= b.words
    requires HeaderAt(base, m, at + HEADER + n, Block(b.words - n - HEADER, true))
    ensures 4 * n < 0x1_0000_0000 && base + 4 * (at + HEADER + n) < 0x1_0000_0000
    ensures var m' := StoreSplit(base, m, at, n);
      && HeaderAt(base, m', at, Block(n, b.free))
      && HeaderAt(base, m', at + HEADER + n, Block(b.words - n - HEADER, true))
      && SameOutside(m, m', at, at + Extent(b))
  {
  }

  /** They complete a split once the remainder's header has been written. */
  lemma SplitEncodes(base: nat, m: seq<Word>, bs: seq<Block>, i: nat, n: nat, bs': seq<Block>)
    requires Placed(base, |m|) && Encodes(base, m, bs) && IsCut(bs, i, bs')
    requires bs'[i] == Block(n, bs[i].free) && bs'[i+1].free
    requires HeaderAt(base, m, PayloadOf(bs, i) + n, bs'[i+1])
    ensures Pos(bs, i) + 2 < |m|
    ensures 4 * n < 0x1_0000_0000 && base + 4 * (Pos(bs, i) + HEADER + n) < 0x1_0000_0000
    ensures Encodes(base, StoreSplit(base, m, Pos(bs, i), n), bs')
  {
    EncodesHeader(base, m, bs, i);
    SplitHeaders(base, m, Pos(bs, i), bs[i], n);
    CutEncodes(base, m, bs, i, StoreSplit(base, m, Pos(bs, i), n), bs');
  }

  /** The size of two blocks made one: both payloads and a header. */
  function Joined(size: nat, next: nat): nat { size + 12 + next }

  /** The stores to `size` and `next` that absorb the block at `next`. */
  function AbsorbMem(m: seq<Word>, at: nat, next: nat): seq<Word>
    requires at + 2 < next && next + 2 < |m| && Joined(m[at], m[next]) < 0x1_0000_0000
  {
    Store(Store(m, at, Joined(m[at], m[next])), at + 2, m[next+2])
  }

  lemma AbsorbEncodes(base: nat, m: seq<Word>, bs: seq<Block>, i: nat)
    requires Placed(base, |m|) && Encodes(base, m, bs) && i + 1 < |bs|
    ensures Pos(bs, i) + 2 < Pos(bs, i + 1) && Pos(bs, i + 1) + 2 < |m|
    ensures Joined(m[Pos(bs, i)], m[Pos(bs, i + 1)]) < 0x1_0000_0000
    ensures Encodes(base, AbsorbMem(m, Pos(bs, i), Pos(bs, i + 1)), FuseAt(bs, i))
    ensures Pos(FuseAt(bs, i), i) == Pos(bs, i)
  {
    EncodesHeader(base, m, bs, i);
    EncodesHeader(base, m, bs, i + 1);
    FuseIsCut(bs, i);
    PosCut(FuseAt(bs, i), i, bs, i);
    FuseEncodes(base, m, bs, i, AbsorbMem(m, Pos(bs, i), Pos(bs, i + 1)), FuseAt(bs, i));
  }

  /** The three stores that write the remainder's header, n words into the
      payload of the block at `at`. */
  function StoreRemainder(m: seq<Word>, at: nat, n: nat): seq<Word>
    requires at + HEADER + n + 2 < |m| && 4 * n + 12 <= m[at]
  {
    var nb := at + HEADER + n;
    Store(Store(Store(m, nb, m[at] - 4 * n - 12), nb + 1, 1), nb + 2, m[at+2])
  }

  lemma RemainderEncodes(base: nat, m: seq<Word>, bs: seq<Block>, i: nat, n: nat)
    requires Encodes(base, m, bs) && i < |bs| && n <= bs[i].words && Splits(bs[i], n)
    ensures HeaderAt(base, m, Pos(bs, i), bs[i])
    ensures var m' := StoreRemainder(m, Pos(bs, i), n);
      && Encodes(base, m', bs)
      && HeaderAt(base, m', PayloadOf(bs, i) + n, Block(bs[i].words - n - HEADER, true))
      && SameOutside(m, m', Pos(bs, i), Pos(bs, i) + Extent(bs[i]))
  {
    EncodesHeader(base, m, bs, i);
    RemainderHeader(base, m, Pos(bs, i), bs[i], n);
    ReplaceEncodes(base, m, bs, i, StoreRemainder(m, Pos(bs, i), n), bs[i]);
    assert bs[i := bs[i]] == bs;
  }

  lemma RemainderHeader(base: nat, m: seq<Word>, at: nat, b: Block, n: nat)
    requires HeaderAt(base, m, at, b) && n <= b.words && Splits(b, n)
    ensures var m' := StoreRemainder(m, at, n);
      && HeaderAt(base, m', at, b)
      && HeaderAt(base, m', at + HEADER + n, Block(b.words - n - HEADER, true))
      && SameOutside(m, m', at, at + Extent(b))
  {
  }

  /** The block at `at` holds a whole number of words, n or more. */
  predicate SplitReady(m: seq<Word>, at: nat, n: nat)
  {
    && at + 2 < |m| && 4 * n <= m[at] && m[at] % 4 == 0 && at + HEADER + m[at] / 4 <= |m|
  }

  /** All of split_block. */
  function SplitMem(base: nat, m: seq<Word>, at: nat, n: nat): seq<Word>
    requires Placed(base, |m|) && SplitReady(m, at, n)
  {
    if m[at] - 4 * n > 12 + 32 then
      StoreSplit(base, StoreRemainder(m, at, n), at, n)
    else m
  }

  lemma SplitMemCases(base: nat, m: seq<Word>, at: nat, b: Block, n: nat)
    requires Placed(base, |m|) && HeaderAt(base, m, at, b) && Fits(b, n)
    ensures SameOutside(m, SplitMem(base, m, at, n), at, at + Extent(b))
    ensures !Splits(b, n) ==> SplitMem(base, m, at, n) == m
    ensures Splits(b, n) ==>
      SplitMem(base, m, at, n) == StoreSplit(base, StoreRemainder(m, at, n), at, n)
  {
  }

  lemma SplitMemEncodes(base: nat, m: seq<Word>, bs: seq<Block>, i: nat, n: nat)
    requires Placed(base, |m|) && Encodes(base, m, bs) && i < |bs| && Fits(bs[i], n)
    ensures HeaderAt(base, m, Pos(bs, i), bs[i])
    ensures Encodes(base, SplitMem(base, m, Pos(bs, i), n), Split(bs, i, n))
    ensures SameOutside(m, SplitMem(base, m, Pos(bs, i), n), Pos(bs, i), Pos(bs, i) + Extent(bs[i]))
  {
    EncodesHeader(base, m, bs, i);
    SplitMemCases(base, m, Pos(bs, i), bs[i], n);
    if Splits(bs[i], n) {
      RemainderEncodes(base, m, bs, i, n);
      CutIsCut(bs, i, n);
      SplitEncodes(base, StoreRemainder(m, Pos(bs, i), n), bs, i, n, CutAt(bs, i, n));
    }
  }

  // ---- Objects ------------------------------------------------------------

  function Payload(m: seq<Word>, p: nat, n: nat): seq<Word>
  {
    if p + n <= |m| then m[p..p+n] else []
  }

  /** What the callers of the allocator see: payload offset to payload contents. */
  function Objects(m: seq<Word>, bs: seq<Block>): map<nat, seq<Word>>
  {
    map p | p in Live(bs) :: Payload(m, p, Live(bs)[p])
  }

  /** One object of at least n words was added at p; every other is as before. */
  predicate Added(before: map<nat, seq<Word>>, after: map<nat, seq<Word>>, p: nat, n: nat)
  {
    && p !in before && p in after
    && after.Keys == before.Keys + {p}
    && n <= |after[p]|
    && forall q :: q in before ==> after[q] == before[q]
  }

  /** Live objects lie inside the heap and are whole. */
  lemma ObjectInside(base: nat, m: seq<Word>, bs: seq<Block>, p: nat)
    requires Encodes(base, m, bs) && p in Objects(m, bs)
    ensures HEADER <= p && p + |Objects(m, bs)[p]| <= |m|
    ensures |Objects(m, bs)[p]| == Live(bs)[p]
  {
    LiveInside(bs, p);
  }

  /** Distinct live objects never share a word, headers included. */
  lemma ObjectsDisjoint(base: nat, m: seq<Word>, bs: seq<Block>, p: nat, q: nat)
    requires Encodes(base, m, bs)
    requires p in Objects(m, bs) && q in Objects(m, bs) && p < q
    ensures p + |Objects(m, bs)[p]| <= q - HEADER
  {
    ObjectInside(base, m, bs, p);
    LiveDisjoint(bs, p, q);
  }

  lemma PayloadSame(m: seq<Word>, m': seq<Word>, p: nat, n: nat, from: nat, to: nat)
    requires SameOutside(m, m', from, to) && p + n <= |m|
    requires p + n <= from || to <= p
    ensures Payload(m', p, n) == Payload(m, p, n)
  {
  }

  /** Rewriting a free block's words, or any block's header, leaves the contents
      of live blocks alone. */
  lemma PayloadsKept(m: seq<Word>, m': seq<Word>, bs: seq<Block>, i: nat)
    requires i < |bs| && Total(bs) == |m|
    requires SameOutside(m, m', Pos(bs, i), Pos(bs, i) + if bs[i].free then Extent(bs[i]) else HEADER)
    ensures forall p :: p in Live(bs) ==> Payload(m', p, Live(bs)[p]) == Payload(m, p, Live(bs)[p])
  {
    var from := Pos(bs, i);
    var to := from + if bs[i].free then Extent(bs[i]) else HEADER;
    forall p | p in Live(bs) ensures Payload(m', p, Live(bs)[p]) == Payload(m, p, Live(bs)[p]) {
      LiveInside(bs, p);
      LiveClearOf(bs, p, i);
      PayloadSame(m, m', p, Live(bs)[p], from, to);
    }
  }

  /** split_block and the store that marks the block used. */
  function TakeMem(base: nat, m: seq<Word>, at: nat, n: nat): seq<Word>
    requires Placed(base, |m|) && SplitReady(m, at, n)
  {
    Store(SplitMem(base, m, at, n), at + 1, 0)
  }

  /** Taking a block adds one object and leaves the others alone. */
  lemma TakeObjects(m: seq<Word>, bs: seq<Block>, m': seq<Word>, n: nat)
    requires FirstFit(bs, n) < |bs| && Total(bs) == |m|
    requires var i := FirstFit(bs, n); SameOutside(m, m', Pos(bs, i), Pos(bs, i) + Extent(bs[i]))
    ensures Added(Objects(m, bs), Objects(m', Allocate(bs, n)), PayloadOf(bs, FirstFit(bs, n)), n)
  {
    var p, w := PayloadOf(bs, FirstFit(bs, n)), Split(bs, FirstFit(bs, n), n)[FirstFit(bs, n)].words;
    AllocateLive(bs, n);
    PayloadsKept(m, m', bs, FirstFit(bs, n));
    LiveInside(Allocate(bs, n), p);
    ObjectAdded(m, bs, m', Allocate(bs, n), p, w, n);
  }

  lemma ObjectAdded(m: seq<Word>, bs: seq<Block>, m': seq<Word>, bs': seq<Block>, p: nat, w: nat, n: nat)
    requires p !in Live(bs) && Live(bs') == Live(bs)[p := w] && n <= w && p + w <= |m'|
    requires forall q :: q in Live(bs) ==> Payload(m', q, Live(bs)[q]) == Payload(m, q, Live(bs)[q])
    ensures Added(Objects(m, bs), Objects(m', bs'), p, n)
  {
    forall q | q in Objects(m, bs) ensures Objects(m', bs')[q] == Objects(m, bs)[q] {
      assert Live(bs')[q] == Live(bs)[q];
    }
  }

  lemma TakeEncodes(base: nat, m: seq<Word>, bs: seq<Block>, n: nat)
    requires Placed(base, |m|) && Encodes(base, m, bs) && FirstFit(bs, n) < |bs|
    ensures HeaderAt(base, m, Pos(bs, FirstFit(bs, n)), bs[FirstFit(bs, n)])
    ensures SplitReady(m, Pos(bs, FirstFit(bs, n)), n)
    ensures var m' := TakeMem(base, m, Pos(bs, FirstFit(bs, n)), n);
      && Encodes(base, m', Allocate(bs, n))
      && Added(Objects(m, bs), Objects(m', Allocate(bs, n)), PayloadOf(bs, FirstFit(bs, n)), n)
    ensures FirstFit(bs, n) < |Allocate(bs, n)|
    ensures Pos(Allocate(bs, n), FirstFit(bs, n)) == Pos(bs, FirstFit(bs, n))
  {
    var i := FirstFit(bs, n);
    var at, split := Pos(bs, i), Split(bs, i, n);
    SplitMemEncodes(base, m, bs, i, n);
    SplitLayout(bs, i, n);
    FlagEncodes(base, SplitMem(base, m, at, n), split, i, false);
    PosSame(split, Allocate(bs, n), i);
    TakeObjects(m, bs, TakeMem(base, m, at, n), n);
  }

  /** Marking a block free removes its object and leaves the others alone. */
  lemma MarkFreeObjects(m: seq<Word>, bs: seq<Block>, i: nat)
    requires i < |bs| && !bs[i].free && Total(bs) == |m| && Pos(bs, i) + 1 < |m|
    ensures Objects(Store(m, Pos(bs, i) + 1, 1), SetFree(bs, i, true)) == Objects(m, bs) - {PayloadOf(bs, i)}
  {
    MarkFreeLive(bs, i);
    PayloadsKept(m, Store(m, Pos(bs, i) + 1, 1), bs, i);
  }

  /** Whatever is written inside one live payload, the chain and every other
      object stay as they are. */
  lemma PayloadWritten(base: nat, m: seq<Word>, m': seq<Word>, bs: seq<Block>, p: nat)
    requires Encodes(base, m, bs) && p in Live(bs)
    requires SameOutside(m, m', p, p + Live(bs)[p])
    ensures Encodes(base, m', bs)
    ensures forall q :: q in Live(bs) && q != p ==> Payload(m', q, Live(bs)[q]) == Payload(m, q, Live(bs)[q])
  {
    var i := IndexOf(bs, p);
    EncodesHeader(base, m, bs, i);
    ReplaceEncodes(base, m, bs, i, m', bs[i]);
    assert bs[i := bs[i]] == bs;
    forall q | q in Live(bs) && q != p
      ensures Payload(m', q, Live(bs)[q]) == Payload(m, q, Live(bs)[q])
    {
      LiveInside(bs, q);
      LiveClearOf(bs, q, i);
      PayloadSame(m, m', q, Live(bs)[q], p, p + Live(bs)[p]);
    }
  }

  /** Object p moved to q, growing to at least n words and keeping its contents;
      every other object is as before. */
  predicate Moved(before: map<nat, seq<Word>>, after: map<nat, seq<Word>>, p: nat, q: nat, n: nat)
  {
    && p in before && q !in before && q in after
    && after.Keys == before.Keys - {p} + {q}
    && n <= |after[q]| && before[p] <= after[q]
    && forall o :: o in before && o != p ==> after[o] == before[o]
  }

  /** The first words of object q replaced by w. */
  function Overwritten(objs: map<nat, seq<Word>>, q: nat, w: seq<Word>): map<nat, seq<Word>>
    requires q in objs && |w| <= |objs[q]|
  {
    objs[q := w + objs[q][|w|..]]
  }

  /** Copying words w over the start of live payload q. */
  lemma ObjectsCopied(base: nat, m: seq<Word>, m': seq<Word>, bs: seq<Block>, q: nat, w: seq<Word>)
    requires Encodes(base, m, bs) && q in Objects(m, bs) && |w| <= |Objects(m, bs)[q]|
    requires SameOutside(m, m', q, q + |w|) && q + |w| <= |m'| && m'[q..q+|w|] == w
    ensures Encodes(base, m', bs)
    ensures Objects(m', bs) == Overwritten(Objects(m, bs), q, w)
  {
    ObjectInside(base, m, bs, q);
    PayloadWritten(base, m, m', bs, q);
    var n := Live(bs)[q];
    assert m'[q..q+n] == w + m[q..q+n][|w|..] by {
      assert m'[q..q+n] == m'[q..q+|w|] + m'[q+|w|..q+n];
    }
    assert Payload(m', q, n) == m'[q..q+n];
  }

  lemma CopiedIsMoved(before: map<nat, seq<Word>>, granted: map<nat, seq<Word>>, after: map<nat, seq<Word>>,
                      p: nat, q: nat, n: nat)
    requires Added(before, granted, q, n) && p in before && |before[p]| <= |granted[q]|
    requires after == Overwritten(granted, q, before[p]) - {p}
    ensures Moved(before, after, p, q, n)
  {
  }

  /** Absorbing a free neighbour changes no object. */
  lemma AbsorbObjects(m: seq<Word>, bs: seq<Block>, i: nat, m': seq<Word>)
    requires Seam(bs, i) && Total(bs) == |m|
    requires SameOutside(m, m', Pos(bs, i), Pos(bs, i) + Extent(bs[i]))
    ensures Objects(m', FuseAt(bs, i)) == Objects(m, bs)
  {
    FuseIsCut(bs, i);
    CutLive(FuseAt(bs, i), i, bs);
    PayloadsKept(m, m', bs, i);
  }
}
