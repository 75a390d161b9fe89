/** The kernel heap seen as a chain of blocks: what allocation, splitting and
    coalescing do to the chain, independent of how it is stored in memory.

    Lengths are in 32-bit words. On the 32-bit target a block header
    (size, free flag, next pointer) is three words, and every request is rounded
    to BLOCK_SIZE = 32 bytes, so each length the allocator handles is a whole
    number of words. */
module HeapBlocks {

  const HEADER: nat := 3     // sizeof(memory_block_t), in words
  const GRAIN: nat := 8      // BLOCK_SIZE, in words

  datatype Block = Block(words: nat, free: bool)

  /** Words a block occupies, header included. */
  function Extent(b: Block): nat { HEADER + b.words }

  /** Word at which the header of block i lies; Pos(bs, |bs|) is the end. */
  function Pos(bs: seq<Block>, i: nat): nat
    requires i <= |bs|
  {
    if i == 0 then 0 else Pos(bs, i - 1) + Extent(bs[i-1])
  }

  /** Words of the whole chain. */
  function Total(bs: seq<Block>): nat { Pos(bs, |bs|) }

  /** Blocks k and k + 1 are both free. */
  predicate Seam(bs: seq<Block>, k: nat)
  {
    k + 1 < |bs| && bs[k].free && bs[k+1].free
  }

  predicate Coalesced(bs: seq<Block>)
  {
    forall k :: 0 <= k < |bs| ==> !Seam(bs, k)
  }

  predicate AllAtLeast(bs: seq<Block>, least: nat)
  {
    forall i :: 0 <= i < |bs| ==> least <= bs[i].words
  }

  /** Word at which the payload of block i starts. */
  function PayloadOf(bs: seq<Block>, i: nat): nat
    requires i < |bs|
  {
    Pos(bs, i) + HEADER
  }

  /** The live (allocated) blocks: payload offset to payload length. */
  function Live(bs: seq<Block>): map<nat, nat>
  {
    LiveUpTo(bs, |bs|)
  }

  function LiveUpTo(bs: seq<Block>, n: nat): map<nat, nat>
    requires n <= |bs|
  {
    if n == 0 then map[]
    else if bs[n-1].free then LiveUpTo(bs, n - 1)
    else LiveUpTo(bs, n - 1)[PayloadOf(bs, n - 1) := bs[n-1].words]
  }

  // ---- What the allocator does to the chain -------------------------------

  predicate Fits(b: Block, n: nat) { b.free && n <= b.words }

  /** Index of the first block at or after `from` that can hold n words; |bs|
      when there is none. */
  function FirstFitFrom(bs: seq<Block>, n: nat, from: nat): (r: nat)
    requires from <= |bs|
    ensures from <= r <= |bs|
    ensures r < |bs| ==> Fits(bs[r], n)
    ensures forall i :: from <= i < r ==> !Fits(bs[i], n)
    decreases |bs| - from
  {
    if from == |bs| || Fits(bs[from], n) then from else FirstFitFrom(bs, n, from + 1)
  }

  function FirstFit(bs: seq<Block>, n: nat): nat { FirstFitFrom(bs, n, 0) }

  /** Enough is left over for a header and more than BLOCK_SIZE bytes. */
  predicate Splits(b: Block, n: nat)
    requires n <= b.words
  {
    b.words - n > HEADER + GRAIN
  }

  /** Block i cut in two, the first part n words long. */
  function CutAt(bs: seq<Block>, i: nat, n: nat): seq<Block>
    requires i < |bs| && n + HEADER <= bs[i].words
  {
    bs[..i] + [Block(n, bs[i].free), Block(bs[i].words - n - HEADER, true)] + bs[i+1..]
  }

  /** Blocks i and i + 1 made one. */
  function FuseAt(bs: seq<Block>, i: nat): seq<Block>
    requires i + 1 < |bs|
  {
    bs[..i] + [Block(bs[i].words + HEADER + bs[i+1].words, bs[i].free)] + bs[i+2..]
  }

  function SetFree(bs: seq<Block>, i: nat, free: bool): seq<Block>
    requires i < |bs|
  {
    bs[i := bs[i].(free := free)]
  }

  /** The chain after split_block. */
  function Split(bs: seq<Block>, i: nat, n: nat): (r: seq<Block>)
    requires i < |bs| && n <= bs[i].words
    ensures i < |r|
  {
    if Splits(bs[i], n) then CutAt(bs, i, n) else bs
  }

  function Allocate(bs: seq<Block>, n: nat): seq<Block>
  {
    var i := FirstFit(bs, n);
    if i == |bs| then bs else SetFree(Split(bs, i, n), i, false)
  }

  /** Merging of neighbouring free blocks, left to right from block i. */
  function MergeFrom(bs: seq<Block>, i: nat): seq<Block>
    decreases |bs| - i
  {
    if i + 1 >= |bs| then bs
    else if Seam(bs, i) then MergeFrom(FuseAt(bs, i), i)
    else MergeFrom(bs, i + 1)
  }

  function Merge(bs: seq<Block>): seq<Block> { MergeFrom(bs, 0) }

  function Release(bs: seq<Block>, i: nat): seq<Block>
    requires i < |bs|
  {
    Merge(SetFree(bs, i, true))
  }

  // ---- Positions ----------------------------------------------------------

  lemma {:induction false} PosMonotone(bs: seq<Block>, i: nat, j: nat)
    requires i < j <= |bs|
    ensures Pos(bs, i) + Extent(bs[i]) <= Pos(bs, j)
  {
    if i + 1 < j { PosMonotone(bs, i, j - 1); }
  }

  /** Positions depend only on the lengths of the blocks before. */
  lemma {:induction false} PosSame(bs: seq<Block>, bs': seq<Block>, i: nat)
    requires i <= |bs| && i <= |bs'|
    requires forall k :: 0 <= k < i ==> bs[k].words == bs'[k].words
    ensures Pos(bs, i) == Pos(bs', i)
  {
    if i > 0 { PosSame(bs, bs', i - 1); }
  }

  /** bs' is bs with block i cut into blocks i and i + 1. */
  predicate IsCut(bs: seq<Block>, i: nat, bs': seq<Block>)
  {
    && i < |bs| && |bs'| == |bs| + 1
    && bs'[i].words + HEADER + bs'[i+1].words == bs[i].words
    && (forall k :: 0 <= k < i ==> bs'[k] == bs[k])
    && (forall k :: i + 1 < k < |bs'| ==> bs'[k] == bs[k-1])
  }

  lemma CutIsCut(bs: seq<Block>, i: nat, n: nat)
    requires i < |bs| && n + HEADER <= bs[i].words
    ensures IsCut(bs, i, CutAt(bs, i, n))
    ensures CutAt(bs, i, n)[i] == Block(n, bs[i].free)
    ensures CutAt(bs, i, n)[i+1] == Block(bs[i].words - n - HEADER, true)
  {
  }

  lemma FuseIsCut(bs: seq<Block>, i: nat)
    requires i + 1 < |bs|
    ensures IsCut(FuseAt(bs, i), i, bs)
    ensures FuseAt(bs, i)[i] == Block(bs[i].words + HEADER + bs[i+1].words, bs[i].free)
  {
  }

  lemma {:induction false} PosCut(bs: seq<Block>, i: nat, bs': seq<Block>, k: nat)
    requires IsCut(bs, i, bs') && k <= |bs|
    ensures k <= i ==> Pos(bs', k) == Pos(bs, k)
    ensures k > i ==> Pos(bs', k + 1) == Pos(bs, k)
    ensures Pos(bs', i + 1) == Pos(bs, i) + Extent(bs'[i])
  {
    if k == 0 || k <= i {
      PosSame(bs, bs', k);
      PosSame(bs, bs', i);
    } else {
      PosCut(bs, i, bs', k - 1);
    }
  }

  // ---- Live blocks --------------------------------------------------------

  /** Block i is live exactly at its payload offset. */
  lemma {:induction false} LiveAt(bs: seq<Block>, i: nat, n: nat)
    requires i < n <= |bs| && !bs[i].free
    ensures PayloadOf(bs, i) in LiveUpTo(bs, n)
    ensures LiveUpTo(bs, n)[PayloadOf(bs, i)] == bs[i].words
  {
    if i < n - 1 {
      LiveAt(bs, i, n - 1);
      PosMonotone(bs, i, n - 1);
    }
  }

  lemma LiveHere(bs: seq<Block>, i: nat)
    requires i < |bs| && !bs[i].free
    ensures PayloadOf(bs, i) in Live(bs) && Live(bs)[PayloadOf(bs, i)] == bs[i].words
  {
    LiveAt(bs, i, |bs|);
  }

  /** Index of the live block whose payload starts at p. */
  function IndexUpTo(bs: seq<Block>, p: nat, n: nat): (i: nat)
    requires n <= |bs| && p in LiveUpTo(bs, n)
    ensures i < n && !bs[i].free && p == PayloadOf(bs, i)
    ensures LiveUpTo(bs, n)[p] == bs[i].words
  {
    if !bs[n-1].free && p == PayloadOf(bs, n - 1) then n - 1 else IndexUpTo(bs, p, n - 1)
  }

  function IndexOf(bs: seq<Block>, p: nat): (i: nat)
    requires p in Live(bs)
    ensures i < |bs| && !bs[i].free && p == PayloadOf(bs, i)
    ensures Live(bs)[p] == bs[i].words
  {
    IndexUpTo(bs, p, |bs|)
  }

  /** Payload offsets identify blocks. */
  lemma IndexUnique(bs: seq<Block>, i: nat)
    requires i < |bs| && !bs[i].free
    ensures PayloadOf(bs, i) in Live(bs) && IndexOf(bs, PayloadOf(bs, i)) == i
  {
    LiveHere(bs, i);
    var j := IndexOf(bs, PayloadOf(bs, i));
    if i < j { PosMonotone(bs, i, j); } else if j < i { PosMonotone(bs, j, i); }
  }

  /** Two chains have the same live blocks when every live block of each is one
      of the other. */
  lemma SameLive(bs: seq<Block>, bs': seq<Block>)
    requires forall p :: p in Live(bs) ==> p in Live(bs') && Live(bs')[p] == Live(bs)[p]
    requires forall p :: p in Live(bs') ==> p in Live(bs)
    ensures Live(bs) == Live(bs')
  {
  }

  /** A live payload lies inside the heap, behind its header. */
  lemma LiveInside(bs: seq<Block>, p: nat)
    requires p in Live(bs)
    ensures HEADER <= p && p + Live(bs)[p] <= Total(bs)
  {
    var i := IndexOf(bs, p);
    PosMonotone(bs, i, |bs|);
  }

  /** Distinct live blocks do not overlap, headers included. */
  lemma LiveDisjoint(bs: seq<Block>, p: nat, q: nat)
    requires p in Live(bs) && q in Live(bs) && p < q
    ensures p + Live(bs)[p] + HEADER <= q
  {
    var i, j := IndexOf(bs, p), IndexOf(bs, q);
    if i < j { PosMonotone(bs, i, j); } else if j < i { PosMonotone(bs, j, i); }
  }

  /** Words [p, p + w) lie clear of block i, and do not follow it directly. */
  predicate Clear(bs: seq<Block>, i: nat, p: nat, w: nat)
    requires i < |bs|
  {
    p + w <= Pos(bs, i) || Pos(bs, i) + Extent(bs[i]) + HEADER <= p
  }

  /** A live block is clear of every other block. */
  lemma LiveClearOf(bs: seq<Block>, p: nat, i: nat)
    requires p in Live(bs) && i < |bs|
    ensures (!bs[i].free && p == PayloadOf(bs, i)) || Clear(bs, i, p, Live(bs)[p])
  {
    var j := IndexOf(bs, p);
    if i < j {
      PosMonotone(bs, i, j);
    } else if j < i {
      PosMonotone(bs, j, i);
    }
  }

  /** Cutting or fusing free blocks does not change which blocks are live. */
  lemma CutLive(bs: seq<Block>, i: nat, bs': seq<Block>)
    requires IsCut(bs, i, bs') && bs[i].free && bs'[i].free && bs'[i+1].free
    ensures Live(bs') == Live(bs)
    ensures Total(bs') == Total(bs)
  {
    PosCut(bs, i, bs', |bs|);
    forall p | p in Live(bs) ensures p in Live(bs') && Live(bs')[p] == Live(bs)[p] { LiveInCut(bs, i, bs', p); }
    forall p | p in Live(bs') ensures p in Live(bs) { LiveBeforeCut(bs, i, bs', p); }
    SameLive(bs, bs');
  }

  lemma LiveInCut(bs: seq<Block>, i: nat, bs': seq<Block>, p: nat)
    requires IsCut(bs, i, bs') && bs[i].free && p in Live(bs)
    ensures p in Live(bs') && Live(bs')[p] == Live(bs)[p]
  {
    var j := IndexOf(bs, p);
    PosCut(bs, i, bs', j);
    if j < i { LiveHere(bs', j); } else { LiveHere(bs', j + 1); }
  }

  lemma LiveBeforeCut(bs: seq<Block>, i: nat, bs': seq<Block>, p: nat)
    requires IsCut(bs, i, bs') && bs'[i].free && bs'[i+1].free && p in Live(bs')
    ensures p in Live(bs)
  {
    var j := IndexOf(bs', p);
    if j < i {
      PosCut(bs, i, bs', j); LiveHere(bs, j);
    } else {
      PosCut(bs, i, bs', j - 1); LiveHere(bs, j - 1);
    }
  }

  /** Marking a free block used makes exactly it live. */
  lemma MarkUsedLive(bs: seq<Block>, i: nat)
    requires i < |bs| && bs[i].free
    ensures PayloadOf(bs, i) !in Live(bs)
    ensures Live(SetFree(bs, i, false)) == Live(bs)[PayloadOf(bs, i) := bs[i].words]
    ensures Total(SetFree(bs, i, false)) == Total(bs)
  {
    var bs' := SetFree(bs, i, false);
    var p0 := PayloadOf(bs, i);
    PosSame(bs, bs', |bs|);
    PosSame(bs, bs', i);
    if p0 in Live(bs) { LiveClearOf(bs, p0, i); }
    LiveHere(bs', i);
    forall p | p in Live(bs) ensures p in Live(bs') && Live(bs')[p] == Live(bs)[p] {
      var j := IndexOf(bs, p);
      PosSame(bs, bs', j);
      LiveHere(bs', j);
    }
    forall p | p in Live(bs') ensures p in Live(bs)[p0 := bs[i].words] {
      var j := IndexOf(bs', p);
      PosSame(bs, bs', j);
      if j != i { LiveHere(bs, j); }
    }
  }

  /** Marking a live block free removes exactly it. */
  lemma MarkFreeLive(bs: seq<Block>, i: nat)
    requires i < |bs| && !bs[i].free
    ensures Live(SetFree(bs, i, true)) == Live(bs) - {PayloadOf(bs, i)}
    ensures Total(SetFree(bs, i, true)) == Total(bs)
  {
    var freed := SetFree(bs, i, true);
    MarkUsedLive(freed, i);
    PosSame(bs, freed, i);
    assert SetFree(freed, i, false) == bs;
  }

  // ---- Merging ------------------------------------------------------------

  lemma {:induction false} MergeKeepsLayout(bs: seq<Block>, i: nat)
    ensures Live(MergeFrom(bs, i)) == Live(bs)
    ensures Total(MergeFrom(bs, i)) == Total(bs)
    ensures bs != [] ==> MergeFrom(bs, i) != []
    decreases |bs| - i
  {
    if i + 1 >= |bs| {
    } else if Seam(bs, i) {
      FuseIsCut(bs, i);
      CutLive(FuseAt(bs, i), i, bs);
      MergeKeepsLayout(FuseAt(bs, i), i);
    } else {
      MergeKeepsLayout(bs, i + 1);
    }
  }

  /** No seam before block i. */
  predicate CoalescedUpTo(bs: seq<Block>, i: nat)
  {
    forall k :: 0 <= k < i ==> !Seam(bs, k)
  }

  lemma FuseKeepsPrefix(bs: seq<Block>, i: nat)
    requires Seam(bs, i) && CoalescedUpTo(bs, i)
    ensures CoalescedUpTo(FuseAt(bs, i), i)
  {
    FuseIsCut(bs, i);
    forall k | 0 <= k < i ensures !Seam(FuseAt(bs, i), k) {
      assert !Seam(bs, k);
    }
  }

  lemma {:induction false} MergeCoalesces(bs: seq<Block>, i: nat)
    requires CoalescedUpTo(bs, i)
    ensures Coalesced(MergeFrom(bs, i))
    decreases |bs| - i
  {
    if i + 1 >= |bs| {
    } else if Seam(bs, i) {
      FuseKeepsPrefix(bs, i);
      MergeCoalesces(FuseAt(bs, i), i);
    } else {
      MergeCoalesces(bs, i + 1);
    }
  }

  /** Merging walks past blocks without a seam. */
  lemma {:induction false} MergeSkips(bs: seq<Block>, i: nat, j: nat)
    requires i <= j && forall k :: i <= k < j ==> !Seam(bs, k)
    ensures MergeFrom(bs, i) == MergeFrom(bs, j)
    decreases j - i
  {
    if i < j {
      assert !Seam(bs, i);
      MergeSkips(bs, i + 1, j);
    }
  }

  lemma MergeIdentity(bs: seq<Block>, i: nat)
    requires Coalesced(bs)
    ensures MergeFrom(bs, i) == bs
  {
    forall k | i <= k < i + |bs| ensures !Seam(bs, k) {
      if k < |bs| { assert !Seam(bs, k); }
    }
    MergeSkips(bs, i, i + |bs|);
  }

  lemma {:induction false} MergeKeepsMinimum(bs: seq<Block>, i: nat, least: nat)
    requires AllAtLeast(bs, least)
    ensures AllAtLeast(MergeFrom(bs, i), least)
    decreases |bs| - i
  {
    if i + 1 >= |bs| {
    } else if Seam(bs, i) {
      FuseIsCut(bs, i);
      MergeKeepsMinimum(FuseAt(bs, i), i, least);
    } else {
      MergeKeepsMinimum(bs, i + 1, least);
    }
  }

  // ---- Allocation ---------------------------------------------------------

  lemma SplitLayout(bs: seq<Block>, i: nat, n: nat)
    requires i < |bs| && Fits(bs[i], n)
    ensures Live(Split(bs, i, n)) == Live(bs)
    ensures Total(Split(bs, i, n)) == Total(bs)
    ensures Split(bs, i, n)[i].free && n <= Split(bs, i, n)[i].words
    ensures Pos(Split(bs, i, n), i) == Pos(bs, i)
  {
    if Splits(bs[i], n) {
      CutIsCut(bs, i, n);
      CutLive(bs, i, CutAt(bs, i, n));
      PosCut(bs, i, CutAt(bs, i, n), i);
    }
  }

  /** A successful allocation adds one live block, at an offset that was not
      live, and leaves every other live block where it was. */
  lemma AllocateLive(bs: seq<Block>, n: nat)
    requires FirstFit(bs, n) < |bs|
    ensures var i := FirstFit(bs, n); var p := PayloadOf(bs, i); var w := Split(bs, i, n)[i].words;
      p !in Live(bs) && n <= w && Live(Allocate(bs, n)) == Live(bs)[p := w]
    ensures Total(Allocate(bs, n)) == Total(bs)
  {
    var i := FirstFit(bs, n);
    SplitLayout(bs, i, n);
    MarkUsedLive(Split(bs, i, n), i);
  }

  lemma AllocateKeepsCoalesced(bs: seq<Block>, n: nat)
    requires Coalesced(bs)
    ensures Coalesced(Allocate(bs, n))
  {
    var i := FirstFit(bs, n);
    if i < |bs| {
      var after := Allocate(bs, n);
      forall k | 0 <= k < |after| ensures !Seam(after, k) {
        if Splits(bs[i], n) {
          CutIsCut(bs, i, n);
          if k < i { assert !Seam(bs, k); } else if k > i { assert !Seam(bs, k - 1); }
        } else {
          assert !Seam(bs, k);
        }
      }
    }
  }

  lemma AllocateKeepsMinimum(bs: seq<Block>, n: nat)
    requires AllAtLeast(bs, GRAIN) && GRAIN <= n
    ensures AllAtLeast(Allocate(bs, n), GRAIN)
  {
    var i := FirstFit(bs, n);
    if i < |bs| && Splits(bs[i], n) { CutIsCut(bs, i, n); }
  }

  // ---- Release ------------------------------------------------------------

  /** Releasing a live block removes exactly it from the live blocks and leaves
      the chain coalesced. */
  lemma ReleaseLive(bs: seq<Block>, i: nat)
    requires i < |bs| && !bs[i].free
    ensures Live(Release(bs, i)) == Live(bs) - {PayloadOf(bs, i)}
    ensures Total(Release(bs, i)) == Total(bs)
    ensures Coalesced(Release(bs, i)) && Release(bs, i) != []
  {
    MarkFreeLive(bs, i);
    MergeKeepsLayout(SetFree(bs, i, true), 0);
    MergeCoalesces(SetFree(bs, i, true), 0);
  }

  /** Freeing what was just allocated restores the chain block for block. */
  lemma ReleaseUndoesAllocate(bs: seq<Block>, n: nat)
    requires Coalesced(bs) && FirstFit(bs, n) < |bs|
    ensures FirstFit(bs, n) < |Allocate(bs, n)|
    ensures !Allocate(bs, n)[FirstFit(bs, n)].free
    ensures PayloadOf(Allocate(bs, n), FirstFit(bs, n)) == PayloadOf(bs, FirstFit(bs, n))
    ensures Release(Allocate(bs, n), FirstFit(bs, n)) == bs
  {
    var i := FirstFit(bs, n);
    var split := Split(bs, i, n);
    SplitLayout(bs, i, n);
    PosSame(split, Allocate(bs, n), i);
    assert SetFree(Allocate(bs, n), i, true) == split;
    if Splits(bs[i], n) { MergeUndoesSplit(bs, i, n); } else { MergeIdentity(bs, 0); }
  }

  lemma MergeUndoesSplit(bs: seq<Block>, i: nat, n: nat)
    requires Coalesced(bs) && i < |bs| && bs[i].free && n <= bs[i].words && Splits(bs[i], n)
    ensures Merge(Split(bs, i, n)) == bs
  {
    var split := Split(bs, i, n);
    CutIsCut(bs, i, n);
    forall k | 0 <= k < i ensures !Seam(split, k) { assert !Seam(bs, k); }
    MergeSkips(split, 0, i);
    assert FuseAt(split, i) == bs;
    assert Seam(split, i);
    MergeIdentity(bs, i);
  }

  /** A coalesced chain without live blocks is the single initial block. */
  lemma NoneLiveIsInitial(bs: seq<Block>)
    requires Coalesced(bs) && bs != [] && Live(bs) == map[]
    ensures bs == [Block(Total(bs) - HEADER, true)]
  {
    forall i | 0 <= i < |bs| ensures bs[i].free {
      if !bs[i].free { LiveHere(bs, i); }
    }
    assert !Seam(bs, 0);
    assert Pos(bs, 1) == Pos(bs, 0) + Extent(bs[0]);
  }

  /** kfree of each payload offset in turn. */
  function ReleaseAll(bs: seq<Block>, ps: seq<nat>): seq<Block>
    requires forall p :: p in ps ==> p in Live(bs)
    requires forall i, j :: 0 <= i < j < |ps| ==> ps[i] != ps[j]
    decreases |ps|
  {
    if ps == [] then bs
    else
      var i := IndexOf(bs, ps[0]);
      ReleaseLive(bs, i);
      assert forall p :: p in ps[1..] ==> p in ps && p != ps[0];
      ReleaseAll(Release(bs, i), ps[1..])
  }

  /** ps lists the live payload offsets, each once. */
  ghost predicate ListsLive(bs: seq<Block>, ps: seq<nat>)
  {
    && (forall p :: p in ps <==> p in Live(bs))
    && (forall i, j :: 0 <= i < j < |ps| ==> ps[i] != ps[j])
  }

  lemma ReleaseFirst(bs: seq<Block>, ps: seq<nat>)
    requires ListsLive(bs, ps) && ps != []
    ensures ps[0] in Live(bs) && ListsLive(Release(bs, IndexOf(bs, ps[0])), ps[1..])
  {
    assert ps[0] in ps;
    ReleaseLive(bs, IndexOf(bs, ps[0]));
    forall p ensures p in ps[1..] <==> p in Live(bs) && p != ps[0] {
      if p in ps[1..] { assert p in ps; }
    }
  }

  /** Freeing every live pointer, in any order, leaves the single block that
      memory_init created. */
  lemma {:induction false} ReleaseAllRestoresInitial(bs: seq<Block>, ps: seq<nat>)
    requires Coalesced(bs) && bs != [] && ListsLive(bs, ps)
    ensures ReleaseAll(bs, ps) == [Block(Total(bs) - HEADER, true)]
    decreases |ps|
  {
    if ps == [] {
      assert forall p :: p in Live(bs) ==> p in ps;
      assert Live(bs) == map[];
      NoneLiveIsInitial(bs);
    } else {
      ReleaseFirst(bs, ps);
      ReleaseLive(bs, IndexOf(bs, ps[0]));
      ReleaseAllRestoresInitial(Release(bs, IndexOf(bs, ps[0])), ps[1..]);
    }
  }

  // ---- Whole runs ---------------------------------------------------------

  /** What enters the locked section of the heap: a rounded request, or a live
      payload offset given back. */
  datatype Call = Get(words: nat) | Put(payload: nat)

  predicate Legal(bs: seq<Block>, c: Call)
  {
    c.Put? ==> c.payload in Live(bs)
  }

  function After(bs: seq<Block>, c: Call): seq<Block>
    requires Legal(bs, c)
  {
    match c
    case Get(n) => Allocate(bs, n)
    case Put(p) => Release(bs, IndexOf(bs, p))
  }

  predicate LegalRun(bs: seq<Block>, cs: seq<Call>)
    decreases |cs|
  {
    cs == [] || (Legal(bs, cs[0]) && LegalRun(After(bs, cs[0]), cs[1..]))
  }

  function Run(bs: seq<Block>, cs: seq<Call>): seq<Block>
    requires LegalRun(bs, cs)
    decreases |cs|
  {
    if cs == [] then bs else Run(After(bs, cs[0]), cs[1..])
  }

  /** The chain fills the heap and has no two free neighbours. */
  predicate Sound(bs: seq<Block>, total: nat) { Coalesced(bs) && bs != [] && Total(bs) == total }

  lemma CallKeeps(bs: seq<Block>, c: Call)
    requires Sound(bs, Total(bs)) && Legal(bs, c)
    ensures Sound(After(bs, c), Total(bs))
    ensures AllAtLeast(bs, GRAIN) && (c.Get? ==> GRAIN <= c.words) ==> AllAtLeast(After(bs, c), GRAIN)
  {
    match c {
      case Get(n) =>
        AllocateKeepsCoalesced(bs, n);
        if FirstFit(bs, n) < |bs| { AllocateLive(bs, n); }
        if AllAtLeast(bs, GRAIN) && GRAIN <= n { AllocateKeepsMinimum(bs, n); }
      case Put(p) =>
        ReleaseLive(bs, IndexOf(bs, p));
        if AllAtLeast(bs, GRAIN) { MergeKeepsMinimum(SetFree(bs, IndexOf(bs, p), true), 0, GRAIN); }
    }
  }

  lemma {:induction false} CallsKeep(bs: seq<Block>, cs: seq<Call>)
    requires Sound(bs, Total(bs)) && LegalRun(bs, cs)
    ensures Sound(Run(bs, cs), Total(bs))
    decreases |cs|
  {
    if cs != [] {
      CallKeeps(bs, cs[0]);
      CallsKeep(After(bs, cs[0]), cs[1..]);
    }
  }

  lemma RunNext(bs: seq<Block>, c: Call, cs: seq<Call>)
    requires Legal(bs, c) && LegalRun(After(bs, c), cs)
    ensures LegalRun(bs, [c] + cs) && Run(bs, [c] + cs) == Run(After(bs, c), cs)
  {
    assert ([c] + cs)[1..] == cs;
  }

  /** What a client asks for. Resize is krealloc of a live payload: it is to hold
      `least` words, and a new block, if one is needed, is requested with `words`. */
  datatype Operation =
    | Malloc(words: nat)
    | Free(payload: nat)
    | Resize(payload: nat, least: nat, words: nat)

  predicate Permitted(bs: seq<Block>, o: Operation)
  {
    !o.Malloc? ==> o.payload in Live(bs)
  }

  /** The sections an operation enters. */
  function CallsOf(bs: seq<Block>, o: Operation): seq<Call>
    requires Permitted(bs, o)
  {
    match o
    case Malloc(n) => [Get(n)]
    case Free(p) => [Put(p)]
    case Resize(p, least, n) =>
      if least <= Live(bs)[p] then [] else if FirstFit(bs, n) == |bs| then [Get(n)] else [Get(n), Put(p)]
  }

  /** What an operation does to the chain. */
  function Performed(bs: seq<Block>, o: Operation): seq<Block>
    requires Permitted(bs, o)
  {
    match o
    case Malloc(n) => Allocate(bs, n)
    case Free(p) => Release(bs, IndexOf(bs, p))
    case Resize(p, least, n) =>
      if least <= Live(bs)[p] || FirstFit(bs, n) == |bs| then bs
      else
        AllocateLive(bs, n);
        Release(Allocate(bs, n), IndexOf(Allocate(bs, n), p))
  }

  /** Its sections, one after the other, do just that. */
  lemma PerformedBySections(bs: seq<Block>, o: Operation)
    requires Permitted(bs, o)
    ensures LegalRun(bs, CallsOf(bs, o)) && Run(bs, CallsOf(bs, o)) == Performed(bs, o)
  {
    match o {
      case Malloc(n) => RunOne(bs, Get(n));
      case Free(p) => RunOne(bs, Put(p));
      case Resize(p, least, n) =>
        if least > Live(bs)[p] {
          if FirstFit(bs, n) == |bs| {
            RunOne(bs, Get(n));
          } else {
            AllocateLive(bs, n);
            RunOne(Allocate(bs, n), Put(p));
            RunNext(bs, Get(n), [Put(p)]);
            assert [Get(n)] + [Put(p)] == [Get(n), Put(p)];
          }
        }
    }
  }

  lemma RunOne(bs: seq<Block>, c: Call)
    requires Legal(bs, c)
    ensures LegalRun(bs, [c]) && Run(bs, [c]) == After(bs, c)
  {
    assert [c][1..] == [];
  }

  /** The chain as a later call finds it: same heap, sound, and with no block below
      BLOCK_SIZE if there was none before and the request was not smaller. */
  predicate Kept(bs: seq<Block>, after: seq<Block>, request: nat)
  {
    Sound(after, Total(bs)) && (AllAtLeast(bs, GRAIN) && GRAIN <= request ==> AllAtLeast(after, GRAIN))
  }

  lemma MovedKeeps(bs: seq<Block>, p: nat, n: nat)
    requires Sound(bs, Total(bs)) && p in Live(bs) && FirstFit(bs, n) < |bs|
    ensures p in Live(Allocate(bs, n))
    ensures Kept(bs, Release(Allocate(bs, n), IndexOf(Allocate(bs, n), p)), n)
  {
    AllocateLive(bs, n);
    CallKeeps(bs, Get(n));
    CallKeeps(Allocate(bs, n), Put(p));
  }

  lemma OperationKeeps(bs: seq<Block>, o: Operation)
    requires Sound(bs, Total(bs)) && Permitted(bs, o)
    ensures Kept(bs, Performed(bs, o), if o.Free? then GRAIN else o.words)
  {
    match o {
      case Malloc(n) => CallKeeps(bs, Get(n));
      case Free(p) => CallKeeps(bs, Put(p));
      case Resize(p, least, n) =>
        if least > Live(bs)[p] && FirstFit(bs, n) < |bs| { MovedKeeps(bs, p, n); }
    }
  }

  predicate PermittedRun(bs: seq<Block>, os: seq<Operation>)
    decreases |os|
  {
    os == [] || (Permitted(bs, os[0]) && PermittedRun(Performed(bs, os[0]), os[1..]))
  }

  function RunOperations(bs: seq<Block>, os: seq<Operation>): seq<Block>
    requires PermittedRun(bs, os)
    decreases |os|
  {
    if os == [] then bs else RunOperations(Performed(bs, os[0]), os[1..])
  }

  /** Every chain reached by allocating, freeing and reallocating fills the heap,
      has no two free neighbours, and has no block below BLOCK_SIZE when no request
      is. */
  lemma {:induction false} RunInvariant(bs: seq<Block>, os: seq<Operation>)
    requires Coalesced(bs) && bs != [] && PermittedRun(bs, os)
    ensures Sound(RunOperations(bs, os), Total(bs))
    ensures AllAtLeast(bs, GRAIN) && (forall o :: o in os && !o.Free? ==> GRAIN <= o.words) ==>
            AllAtLeast(RunOperations(bs, os), GRAIN)
    decreases |os|
  {
    if os != [] {
      OperationKeeps(bs, os[0]);
      assert os[0] in os && forall o :: o in os[1..] ==> o in os;
      RunInvariant(Performed(bs, os[0]), os[1..]);
    }
  }

  /** However a run ends, freeing what is still live, in any order, leaves the
      block that memory_init created. */
  lemma RunThenFreeAll(total: nat, os: seq<Operation>, ps: seq<nat>)
    requires HEADER <= total && PermittedRun(OneBlock(total), os)
    requires ListsLive(RunOperations(OneBlock(total), os), ps)
    ensures ReleaseAll(RunOperations(OneBlock(total), os), ps) == OneBlock(total)
  {
    OneBlockSound(total);
    RunInvariant(OneBlock(total), os);
    ReleaseAllRestoresInitial(RunOperations(OneBlock(total), os), ps);
  }

  // ---- How much a block may hold beyond its request -----------------------

  /** The words each live block was asked for, after an operation. */
  function Asked(bs: seq<Block>, r: map<nat, nat>, o: Operation): map<nat, nat>
    requires Permitted(bs, o)
  {
    match o
    case Malloc(n) => if FirstFit(bs, n) == |bs| then r else r[PayloadOf(bs, FirstFit(bs, n)) := n]
    case Free(p) => r - {p}
    case Resize(p, least, n) =>
      if least <= Live(bs)[p] || FirstFit(bs, n) == |bs| then r
      else r[PayloadOf(bs, FirstFit(bs, n)) := n] - {p}
  }

  function AskedOver(bs: seq<Block>, r: map<nat, nat>, os: seq<Operation>): map<nat, nat>
    requires PermittedRun(bs, os)
    decreases |os|
  {
    if os == [] then r else AskedOver(Performed(bs, os[0]), Asked(bs, r, os[0]), os[1..])
  }

  /** Every live block has what it was asked for and at most 44 bytes more. */
  predicate Tight(bs: seq<Block>, r: map<nat, nat>)
  {
    r.Keys == Live(bs).Keys && forall p :: p in r ==> 4 * r[p] <= 4 * Live(bs)[p] <= 4 * r[p] + 44
  }

  lemma AllocateTight(bs: seq<Block>, r: map<nat, nat>, n: nat)
    requires Tight(bs, r) && FirstFit(bs, n) < |bs|
    ensures Tight(Allocate(bs, n), r[PayloadOf(bs, FirstFit(bs, n)) := n])
  {
    AllocateLive(bs, n);
    if Splits(bs[FirstFit(bs, n)], n) { CutIsCut(bs, FirstFit(bs, n), n); }
  }

  lemma ReleaseTight(bs: seq<Block>, r: map<nat, nat>, p: nat)
    requires Tight(bs, r) && p in Live(bs)
    ensures Tight(Release(bs, IndexOf(bs, p)), r - {p})
  {
    ReleaseLive(bs, IndexOf(bs, p));
  }

  lemma OperationTight(bs: seq<Block>, r: map<nat, nat>, o: Operation)
    requires Tight(bs, r) && Permitted(bs, o)
    ensures Tight(Performed(bs, o), Asked(bs, r, o))
  {
    match o {
      case Malloc(n) => if FirstFit(bs, n) < |bs| { AllocateTight(bs, r, n); }
      case Free(p) => ReleaseTight(bs, r, p);
      case Resize(p, least, n) =>
        if least > Live(bs)[p] && FirstFit(bs, n) < |bs| {
          AllocateTight(bs, r, n);
          AllocateLive(bs, n);
          ReleaseTight(Allocate(bs, n), r[PayloadOf(bs, FirstFit(bs, n)) := n], p);
        }
    }
  }

  /** In every heap reached by allocating, freeing and reallocating, no live block
      holds more than 44 bytes beyond its rounded request. */
  lemma {:induction false} WasteBounded(bs: seq<Block>, r: map<nat, nat>, os: seq<Operation>)
    requires Tight(bs, r) && PermittedRun(bs, os)
    ensures Tight(RunOperations(bs, os), AskedOver(bs, r, os))
    decreases |os|
  {
    if os != [] {
      OperationTight(bs, r, os[0]);
      WasteBounded(Performed(bs, os[0]), Asked(bs, r, os[0]), os[1..]);
    }
  }

  predicate WholeRequests(os: seq<Operation>) { forall o :: o in os && !o.Free? ==> o.words % GRAIN == 0 }

  predicate WholeBlocks(r: map<nat, nat>) { forall p :: p in r ==> r[p] % GRAIN == 0 }

  lemma {:induction false} AskedWhole(bs: seq<Block>, r: map<nat, nat>, os: seq<Operation>)
    requires PermittedRun(bs, os) && WholeRequests(os) && WholeBlocks(r)
    ensures WholeBlocks(AskedOver(bs, r, os))
    decreases |os|
  {
    if os != [] {
      assert os[0] in os && forall o :: o in os[1..] ==> o in os;
      AskedWhole(Performed(bs, os[0]), Asked(bs, r, os[0]), os[1..]);
    }
  }

  /** Over any run of requests that are whole units of 32 bytes, each live block is
      either exactly its request, a whole number of units, or a block taken whole with
      at most 44 bytes beyond it. */
  lemma WholeOrTakenWhole(total: nat, os: seq<Operation>, p: nat)
    requires HEADER <= total && PermittedRun(OneBlock(total), os) && WholeRequests(os)
    requires p in Live(RunOperations(OneBlock(total), os))
    ensures var w, r := Live(RunOperations(OneBlock(total), os))[p], AskedOver(OneBlock(total), map[], os);
      p in r && 4 * r[p] % 32 == 0 && (w == r[p] || 4 * r[p] < 4 * w <= 4 * r[p] + 44)
  {
    OneBlockTight(total);
    WasteBounded(OneBlock(total), map[], os);
    AskedWhole(OneBlock(total), map[], os);
    TightAt(RunOperations(OneBlock(total), os), AskedOver(OneBlock(total), map[], os), p);
  }

  lemma TightAt(bs: seq<Block>, r: map<nat, nat>, p: nat)
    requires Tight(bs, r) && WholeBlocks(r) && p in Live(bs)
    ensures p in r && 4 * r[p] % 32 == 0 && (Live(bs)[p] == r[p] || 4 * r[p] < 4 * Live(bs)[p] <= 4 * r[p] + 44)
  {
    assert p in r.Keys;
    assert r[p] == GRAIN * (r[p] / GRAIN);
  }

  lemma OneBlockTight(total: nat)
    requires HEADER <= total
    ensures Tight(OneBlock(total), map[])
  {
    assert LiveUpTo(OneBlock(total), 1) == LiveUpTo(OneBlock(total), 0);
  }

  /** memory_init: one free block that fills the heap. */
  function OneBlock(total: nat): seq<Block>
    requires HEADER <= total
  {
    [Block(total - HEADER, true)]
  }

  lemma OneBlockSound(total: nat)
    requires HEADER <= total
    ensures Sound(OneBlock(total), total)
  {
    assert Total(OneBlock(total)) == Pos(OneBlock(total), 0) + Extent(OneBlock(total)[0]);
  }

  // ---- When allocation must fail ------------------------------------------

  /** A header and n words placed at `from` stay inside the heap and touch no
      live block, header included. */
  predicate Gap(bs: seq<Block>, from: nat, n: nat)
  {
    && from + HEADER + n <= Total(bs)
    && forall p :: p in Live(bs) ==> from + HEADER + n <= p - HEADER || p + Live(bs)[p] <= from
  }

  /** Some gap between live blocks has room for a header and n words. */
  predicate HasGap(bs: seq<Block>, n: nat)
  {
    exists from :: 0 <= from <= Total(bs) && Gap(bs, from, n)
  }

  /** The block that covers word w. */
  lemma {:induction false} Covering(bs: seq<Block>, w: nat, n: nat) returns (i: nat)
    requires n <= |bs| && w < Pos(bs, n)
    ensures i < n && Pos(bs, i) <= w < Pos(bs, i) + Extent(bs[i])
  {
    if Pos(bs, n - 1) <= w { i := n - 1; } else { i := Covering(bs, w, n - 1); }
  }

  lemma FreeBlockIsGap(bs: seq<Block>, i: nat, n: nat)
    requires i < |bs| && Fits(bs[i], n)
    ensures Gap(bs, Pos(bs, i), n)
  {
    PosMonotone(bs, i, |bs|);
    forall p | p in Live(bs)
      ensures Pos(bs, i) + HEADER + n <= p - HEADER || p + Live(bs)[p] <= Pos(bs, i)
    {
      LiveClearOf(bs, p, i);
    }
  }

  lemma GapIsFreeBlock(bs: seq<Block>, from: nat, n: nat) returns (i: nat)
    requires Coalesced(bs) && Gap(bs, from, n)
    ensures i < |bs| && Fits(bs[i], n)
  {
    i := Covering(bs, from, |bs|);
    if !bs[i].free { LiveHere(bs, i); assert false; }
    if from + HEADER + n > Pos(bs, i) + Extent(bs[i]) {
      assert Pos(bs, i + 1) == Pos(bs, i) + Extent(bs[i]);
      assert i + 1 < |bs| && !Seam(bs, i);
      LiveHere(bs, i + 1);
      assert false;
    }
  }

  /** First-fit finds a block exactly when some gap between live blocks holds
      a header and n words: free space is never lost to fragmentation between
      free neighbours. */
  lemma FitsIffGap(bs: seq<Block>, n: nat)
    requires Coalesced(bs)
    ensures FirstFit(bs, n) < |bs| <==> HasGap(bs, n)
  {
    var i := FirstFit(bs, n);
    if i < |bs| {
      FreeBlockIsGap(bs, i, n);
      assert Gap(bs, Pos(bs, i), n);
    }
    if HasGap(bs, n) {
      var from :| 0 <= from <= Total(bs) && Gap(bs, from, n);
      var j := GapIsFreeBlock(bs, from, n);
      assert Fits(bs[j], n);
    }
  }
}
