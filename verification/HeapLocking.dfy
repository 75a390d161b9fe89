/** The heap under concurrency: any number of CPUs, each with a stack of nested
    contexts (a thread and the interrupt handlers that interrupted it), take the
    heap lock with interrupts saved and disabled, run find_block, split_block and
    merge_blocks one store at a time, and release it. Steps of different CPUs
    interleave freely; client code writes to its own live blocks at any time. */
module HeapLocking {
  import opened Common
  import opened HeapBlocks
  import opened HeapLayout

  /** Where a context is. The pointers are the C locals; `i` counts the blocks
      behind `block` and, like `entry`, is only remembered, never acted on. */
  datatype Pc =
    | Idle
    | Save                                   // pushf; pop
    | Disable                                // cli
    | Spin                                   // test-and-set until it succeeds
    | Find(block: Word, i: nat)              // loop of find_block
    | Test(block: Word, i: nat)              // condition of split_block
    | Carve(block: Word, k: nat, i: nat)     // store number k of split_block
    | MarkUsed(block: Word, i: nat)
    | MarkFree
    | Merging(block: Word, i: nat)           // loop of merge_blocks, first store
    | MergeNext(block: Word, i: nat)         // second store
    | Unlock(result: Word)
    | Restore(result: Word)

  datatype Context = Context(pc: Pc, op: Call, saved: bool, entry: bool, resume: bool)

  /** enabled: the CPU's interrupt flag. */
  datatype Cpu = Cpu(enabled: bool, stack: seq<Context>)

  /** chain, start and holder are history: the chain the memory holds, the chain
      when the lock was last taken, and who took it. */
  datatype State = State(lock: bool, mem: seq<Word>, cpus: seq<Cpu>,
                         chain: seq<Block>, start: seq<Block>, holder: nat)

  datatype Step =
    | Enter(c: nat, op: Call)              // client code enters the allocator
    | SetInterrupts(c: nat, on: bool)   // client code runs sti or cli
    | Interrupt(c: nat, masked: bool)   // an interrupt arrives; its gate masks or not
    | Return(c: nat)                    // iret
    | Advance(c: nat)                   // the next step of the allocator
    | Write(c: nat, payload: nat, k: nat, v: Word)   // client code writes to a live block

  // ---- Machine operations -------------------------------------------------

  function Read(m: seq<Word>, a: int): Word { if 0 <= a < |m| then m[a] else 0 }

  function Poke(m: seq<Word>, a: int, v: Word): seq<Word> { if 0 <= a < |m| then m[a := v] else m }

  function Offset(base: nat, ptr: Word): int { (ptr - base) / 4 }

  predicate InSection(pc: Pc)
  {
    pc.Find? || pc.Test? || pc.Carve? || pc.MarkUsed? || pc.MarkFree? || pc.Merging? || pc.MergeNext? || pc.Unlock?
  }

  function Top(cpu: Cpu): Context
    requires cpu.stack != []
  {
    cpu.stack[|cpu.stack| - 1]
  }

  function SetTop(cpu: Cpu, ctx: Context): Cpu
    requires cpu.stack != []
  {
    cpu.(stack := cpu.stack[|cpu.stack| - 1 := ctx])
  }

  /** What the running context of one CPU does next to the memory, to itself and
      to the remembered chain, inside the locked section. */
  datatype Effect = Effect(mem: seq<Word>, pc: Pc, chain: seq<Block>)

  function Section(base: nat, m: seq<Word>, chain: seq<Block>, op: Call, pc: Pc): Effect
    requires InSection(pc) && !pc.Unlock?
  {
    match pc
    case Find(block, i) =>
      var at := Offset(base, block);
      var n := if op.Get? then op.words else 0;
      if block == NULL then Effect(m, Unlock(NULL), chain)
      else if Read(m, at + 1) != 0 && Read(m, at) >= 4 * n then Effect(m, Test(block, i), chain)
      else Effect(m, Find(Read(m, at + 2), i + 1), chain)
    case Test(block, i) =>
      var n := if op.Get? then op.words else 0;
      if Wrap(Read(m, Offset(base, block)) - 4 * n) > 12 + 32 then Effect(m, Carve(block, 0, i), chain)
      else Effect(m, MarkUsed(block, i), chain)
    case Carve(block, k, i) =>
      var at := Offset(base, block);
      var n := if op.Get? then op.words else 0;
      var nb := at + HEADER + n;
      if k == 0 then Effect(Poke(m, nb, Wrap(Read(m, at) - 4 * n - 12)), Carve(block, 1, i), chain)
      else if k == 1 then Effect(Poke(m, nb + 1, 1), Carve(block, 2, i), chain)
      else if k == 2 then Effect(Poke(m, nb + 2, Read(m, at + 2)), Carve(block, 3, i), chain)
      else if k == 3 then Effect(Poke(m, at, Wrap(4 * n)), Carve(block, 4, i), chain)
      else Effect(Poke(m, at + 2, Wrap(block + 12 + 4 * n)), MarkUsed(block, i),
                  if i < |chain| && n + HEADER <= chain[i].words then CutAt(chain, i, n) else chain)
    case MarkUsed(block, i) =>
      Effect(Poke(m, Offset(base, block) + 1, 0), Unlock(Wrap(block + 12)),
             if i < |chain| then SetFree(chain, i, false) else chain)
    case MarkFree =>
      var p := if op.Put? then op.payload else 0;
      Effect(Poke(m, p - HEADER + 1, 1), Merging(Wrap(base), 0),
             if p in Live(chain) then SetFree(chain, IndexOf(chain, p), true) else chain)
    case Merging(block, i) =>
      var at := Offset(base, block);
      var next := Read(m, at + 2);
      if block == NULL || next == NULL then Effect(m, Unlock(NULL), chain)
      else if Read(m, at + 1) != 0 && Read(m, Offset(base, next) + 1) != 0 then
        Effect(Poke(m, at, Wrap(Joined(Read(m, at), Read(m, Offset(base, next))))), MergeNext(block, i), chain)
      else Effect(m, Merging(next, i + 1), chain)
    case MergeNext(block, i) =>
      var at := Offset(base, block);
      Effect(Poke(m, at + 2, Read(m, Offset(base, Read(m, at + 2)) + 2)), Merging(block, i),
             if i + 1 < |chain| then FuseAt(chain, i) else chain)
  }

  // ---- Steps --------------------------------------------------------------

  predicate Running(s: State, c: nat) { c < |s.cpus| && s.cpus[c].stack != [] }

  /** A step can happen. Callers must pass kfree a pointer that is live when its
      section starts, and write only inside live blocks. */
  predicate Enabled(s: State, t: Step)
  {
    match t
    case Enter(c, op) => Running(s, c) && Top(s.cpus[c]).pc.Idle? && (op.Get? ==> 4 * op.words < 0x1_0000_0000)
    case SetInterrupts(c, on) => Running(s, c) && Top(s.cpus[c]).pc.Idle?
    case Interrupt(c, masked) => Running(s, c) && s.cpus[c].enabled
    case Return(c) => Running(s, c) && 1 < |s.cpus[c].stack| && Top(s.cpus[c]).pc.Idle?
    case Advance(c) =>
      && Running(s, c) && !Top(s.cpus[c]).pc.Idle?
      && (Top(s.cpus[c]).pc.Spin? && !s.lock && Top(s.cpus[c]).op.Put? ==> Top(s.cpus[c]).op.payload in Live(s.chain))
    case Write(c, p, k, v) => Running(s, c) && Top(s.cpus[c]).pc.Idle? && p in Live(s.chain) && k < Live(s.chain)[p]
  }

  function SetCpu(s: State, c: nat, cpu: Cpu): State
    requires c < |s.cpus|
  {
    s.(cpus := s.cpus[c := cpu])
  }

  function Apply(base: nat, s: State, t: Step): State
    requires Enabled(s, t)
  {
    var cpu := s.cpus[t.c];
    match t
    case Enter(c, op) =>
      SetCpu(s, c, SetTop(cpu, Top(cpu).(pc := Save, op := op, entry := cpu.enabled)))
    case SetInterrupts(c, on) => SetCpu(s, c, cpu.(enabled := on))
    case Interrupt(c, masked) =>
      SetCpu(s, c, Cpu(!masked, cpu.stack + [Context(Idle, Get(0), false, false, true)]))
    case Return(c) => SetCpu(s, c, Cpu(Top(cpu).resume, cpu.stack[..|cpu.stack| - 1]))
    case Advance(c) => AdvanceCpu(base, s, c)
    case Write(c, p, k, v) => s.(mem := Poke(s.mem, p + k, v))
  }

  function AdvanceCpu(base: nat, s: State, c: nat): State
    requires Enabled(s, Advance(c))
  {
    var cpu := s.cpus[c];
    var ctx := Top(cpu);
    if ctx.pc.Save? then
      SetCpu(s, c, SetTop(cpu, ctx.(pc := Disable, saved := cpu.enabled)))
    else if ctx.pc.Disable? then
      SetCpu(s, c, SetTop(cpu, ctx.(pc := Spin)).(enabled := false))
    else if ctx.pc.Spin? then
      if s.lock then s
      else
        var first := if ctx.op.Get? then Find(Wrap(base), 0) else MarkFree;
        SetCpu(s, c, SetTop(cpu, ctx.(pc := first))).(lock := true, start := s.chain, holder := c)
    else if ctx.pc.Unlock? then
      SetCpu(s, c, SetTop(cpu, ctx.(pc := Restore(ctx.pc.result)))).(lock := false)
    else if ctx.pc.Restore? then
      SetCpu(s, c, SetTop(cpu, ctx.(pc := Idle)).(enabled := ctx.saved))
    else
      var e := Section(base, s.mem, s.chain, ctx.op, ctx.pc);
      SetCpu(s, c, SetTop(cpu, ctx.(pc := e.pc))).(mem := e.mem, chain := e.chain)
  }

  /** What a whole section should do to the chain. */
  function Atomic(op: Call, start: seq<Block>): seq<Block>
  {
    if Legal(start, op) then After(start, op) else start
  }

  /** What it should return. */
  function Answer(base: nat, op: Call, start: seq<Block>): int
  {
    if op.Get? && FirstFit(start, op.words) < |start| then base + 4 * PayloadOf(start, FirstFit(start, op.words))
    else NULL
  }

  // ---- The invariant ------------------------------------------------------

  /** A context that was interrupted: not inside the lock protocol's masked part. */
  predicate SuspendedOk(ctx: Context)
  {
    && (ctx.pc.Idle? || ctx.pc.Save? || ctx.pc.Disable?)
    && (!ctx.pc.Idle? ==> ctx.entry)
    && (ctx.pc.Disable? ==> ctx.saved)
  }

  predicate TopOk(enabled: bool, ctx: Context)
  {
    && (ctx.pc.Save? || ctx.pc.Disable? ==> enabled == ctx.entry)
    && (!ctx.pc.Idle? && !ctx.pc.Save? ==> ctx.saved == ctx.entry)
    && (InSection(ctx.pc) || ctx.pc.Spin? || ctx.pc.Restore? ==> !enabled)
    && (ctx.op.Get? ==> 4 * ctx.op.words < 0x1_0000_0000)
  }

  predicate CpuOk(cpu: Cpu)
  {
    && cpu.stack != []
    && TopOk(cpu.enabled, Top(cpu))
    && (forall j :: 0 <= j < |cpu.stack| - 1 ==> SuspendedOk(cpu.stack[j]) && OpOk(cpu.stack[j].op))
    && (forall j :: 1 <= j < |cpu.stack| ==> cpu.stack[j].resume)
  }

  predicate OpOk(op: Call) { op.Get? ==> 4 * op.words < 0x1_0000_0000 }

  predicate Holding(cpu: Cpu) { cpu.stack != [] && InSection(Top(cpu).pc) }

  /** What is true of the memory at each point of the section. */
  predicate SectionOk(base: nat, m: seq<Word>, chain: seq<Block>, start: seq<Block>, op: Call, pc: Pc)
  {
    Coalesced(start) &&
    match pc
    case Find(block, i) =>
      && op.Get? && chain == start && Encodes(base, m, chain)
      && i <= |chain| && block == Link(base, |m|, Pos(chain, i))
      && FirstFitFrom(chain, op.words, i) == FirstFit(chain, op.words)
    case Test(block, i) =>
      && op.Get? && chain == start && Encodes(base, m, chain) && AtFit(base, start, op.words, block, i)
    case Carve(block, k, i) =>
      && op.Get? && chain == start && AtFit(base, start, op.words, block, i) && Splits(chain[i], op.words) && k <= 4
      && CarveOk(base, m, chain, op.words, k, i)
    case MarkUsed(block, i) =>
      && op.Get? && Encodes(base, m, chain) && AtFit(base, start, op.words, block, i)
      && chain == Split(start, i, op.words)
    case MarkFree =>
      && op.Put? && chain == start && Encodes(base, m, chain) && op.payload in Live(start)
    case Merging(block, i) =>
      && op.Put? && op.payload in Live(start) && Encodes(base, m, chain)
      && i < |chain| && block == base + 4 * Pos(chain, i) && MergeFrom(chain, i) == Atomic(op, start)
    case MergeNext(block, i) =>
      && op.Put? && op.payload in Live(start)
      && Seam(chain, i) && block == base + 4 * Pos(chain, i) && MergeFrom(chain, i) == Atomic(op, start)
      && MergeNextOk(base, m, chain, i)
    case Unlock(result) =>
      && Legal(start, op) && Encodes(base, m, chain)
      && chain == Atomic(op, start) && result == Answer(base, op, start)
    case _ => false
  }

  /** block is the first that fits. */
  predicate AtFit(base: nat, start: seq<Block>, n: nat, block: Word, i: nat)
  {
    i == FirstFit(start, n) && i < |start| && block == base + 4 * Pos(start, i)
  }

  /** The first k stores of split_block have been made. */
  predicate CarveOk(base: nat, m: seq<Word>, chain: seq<Block>, n: nat, k: nat, i: nat)
    requires i < |chain| && n <= chain[i].words && Splits(chain[i], n) && k <= 4
  {
    var at := Pos(chain, i);
    var nb := at + HEADER + n;
    && nb + 2 < |m| && 4 * chain[i].words < 0x1_0000_0000
    && Encodes(base, Store(m, at, 4 * chain[i].words), chain)
    && m[at] == (if k < 4 then 4 * chain[i].words else 4 * n)
    && (k > 0 ==> m[nb] == 4 * (chain[i].words - n - HEADER))
    && (k > 1 ==> m[nb+1] == 1)
    && (k > 2 ==> m[nb+2] == Link(base, |m|, at + Extent(chain[i])))
  }

  predicate MergeNextOk(base: nat, m: seq<Word>, chain: seq<Block>, i: nat)
    requires Seam(chain, i)
  {
    var at := Pos(chain, i);
    && at < |m| && 4 * chain[i].words < 0x1_0000_0000
    && Encodes(base, Store(m, at, 4 * chain[i].words), chain)
    && m[at] == 4 * (chain[i].words + HEADER + chain[i+1].words)
  }

  /** The step taken at pc leads to what must be true next. */
  predicate StepOk(base: nat, m: seq<Word>, chain: seq<Block>, start: seq<Block>, op: Call, pc: Pc)
    requires InSection(pc) && !pc.Unlock?
  {
    var e := Section(base, m, chain, op, pc);
    SectionOk(base, e.mem, e.chain, start, op, e.pc)
  }

  predicate Inv(base: nat, s: State)
  {
    && Placed(base, |s.mem|)
    && (forall c :: 0 <= c < |s.cpus| ==> CpuOk(s.cpus[c]))
    && (forall c :: 0 <= c < |s.cpus| && Holding(s.cpus[c]) ==> s.lock && c == s.holder)
    && (s.lock ==>
          && s.holder < |s.cpus| && Holding(s.cpus[s.holder])
          && SectionOk(base, s.mem, s.chain, s.start, Top(s.cpus[s.holder]).op, Top(s.cpus[s.holder]).pc))
    && (!s.lock ==> Encodes(base, s.mem, s.chain) && Coalesced(s.chain))
  }

  // ---- One store at a time ------------------------------------------------

  lemma OffsetOf(base: nat, ptr: Word, at: nat)
    requires ptr == base + 4 * at
    ensures Offset(base, ptr) == at
  {
  }

  lemma FindStep(base: nat, m: seq<Word>, chain: seq<Block>, op: Call, block: Word, i: nat)
    requires Placed(base, |m|) && SectionOk(base, m, chain, chain, op, Find(block, i))
    ensures StepOk(base, m, chain, chain, op, Find(block, i))
  {
    if i < |chain| {
      EncodesHeader(base, m, chain, i);
      OffsetOf(base, block, Pos(chain, i));
    }
  }

  lemma TestStep(base: nat, m: seq<Word>, chain: seq<Block>, op: Call, block: Word, i: nat)
    requires Placed(base, |m|) && SectionOk(base, m, chain, chain, op, Test(block, i))
    ensures StepOk(base, m, chain, chain, op, Test(block, i))
  {
    EncodesHeader(base, m, chain, i);
    OffsetOf(base, block, Pos(chain, i));
    TestEffect(base, m, chain, op, block, i, Pos(chain, i), chain[i]);
    if Splits(chain[i], op.words) { CarveOkStart(base, m, chain, op.words, i); }
  }

  lemma TestEffect(base: nat, m: seq<Word>, chain: seq<Block>, op: Call, block: Word, i: nat, at: nat, b: Block)
    requires op.Get? && Offset(base, block) == at < |m| && m[at] == 4 * b.words && op.words <= b.words
    ensures Section(base, m, chain, op, Test(block, i)) ==
      Effect(m, if Splits(b, op.words) then Carve(block, 0, i) else MarkUsed(block, i), chain)
  {
  }

  lemma CarveOkStart(base: nat, m: seq<Word>, chain: seq<Block>, n: nat, i: nat)
    requires Encodes(base, m, chain) && i < |chain| && n <= chain[i].words && Splits(chain[i], n)
    ensures CarveOk(base, m, chain, n, 0, i)
  {
    EncodesHeader(base, m, chain, i);
    StoreSame(m, Pos(chain, i), 4 * chain[i].words);
  }

  /** The stores into the payload of the block being split. */
  lemma CarveOkStep(base: nat, m: seq<Word>, chain: seq<Block>, n: nat, k: nat, i: nat, v: Word)
    requires i < |chain| && n <= chain[i].words && Splits(chain[i], n) && k < 3
    requires CarveOk(base, m, chain, n, k, i)
    requires v == (if k == 0 then 4 * (chain[i].words - n - HEADER) else if k == 1 then 1
                   else Link(base, |m|, Pos(chain, i) + Extent(chain[i])))
    ensures CarveOk(base, Store(m, Pos(chain, i) + HEADER + n + k, v), chain, n, k + 1, i)
  {
    var at := Pos(chain, i);
    StoreSame(m, at, 4 * chain[i].words);
    PayloadEncodes(base, m, chain, i, n + k, v);
    StoreSame(Store(m, at + HEADER + n + k, v), at, 4 * chain[i].words);
  }

  /** What the stores into the payload store. */
  lemma CarveEffect(base: nat, m: seq<Word>, chain: seq<Block>, op: Call, block: Word, k: nat, i: nat, at: nat, words: nat)
    requires op.Get? && k < 3 && Offset(base, block) == at && at + HEADER + op.words + 2 < |m|
    requires m[at] == 4 * words < 0x1_0000_0000 && op.words + HEADER <= words
    ensures Section(base, m, chain, op, Carve(block, k, i)) ==
      Effect(Store(m, at + HEADER + op.words + k,
                   if k == 0 then 4 * (words - op.words - HEADER) else if k == 1 then 1 else m[at+2]),
             Carve(block, k + 1, i), chain)
  {
  }

  lemma CarveHeaderStep(base: nat, m: seq<Word>, chain: seq<Block>, op: Call, block: Word, k: nat, i: nat)
    requires Placed(base, |m|) && SectionOk(base, m, chain, chain, op, Carve(block, k, i)) && k < 3
    ensures StepOk(base, m, chain, chain, op, Carve(block, k, i))
  {
    var n, at := op.words, Pos(chain, i);
    assert HeaderAt(base, m, at, chain[i]) by {
      StoreSame(m, at, 4 * chain[i].words);
      EncodesHeader(base, m, chain, i);
    }
    var v: Word := if k == 0 then 4 * (chain[i].words - n - HEADER) else if k == 1 then 1 else m[at+2];
    CarveOkStep(base, m, chain, n, k, i, v);
    OffsetOf(base, block, at);
    CarveEffect(base, m, chain, op, block, k, i, at, chain[i].words);
  }

  lemma CarveSizeStep(base: nat, m: seq<Word>, chain: seq<Block>, op: Call, block: Word, k: nat, i: nat)
    requires Placed(base, |m|) && SectionOk(base, m, chain, chain, op, Carve(block, k, i)) && k == 3
    ensures StepOk(base, m, chain, chain, op, Carve(block, k, i))
  {
    OffsetOf(base, block, Pos(chain, i));
    CarveSizeEffect(base, m, chain, op, block, k, i, Pos(chain, i));
    CarveSizeOk(base, m, chain, op.words, i);
  }

  lemma CarveSizeEffect(base: nat, m: seq<Word>, chain: seq<Block>, op: Call, block: Word, k: nat, i: nat, at: nat)
    requires op.Get? && k == 3 && Offset(base, block) == at < |m| && 4 * op.words < 0x1_0000_0000
    ensures Section(base, m, chain, op, Carve(block, k, i)) == Effect(Store(m, at, 4 * op.words), Carve(block, 4, i), chain)
  {
  }

  lemma CarveSizeOk(base: nat, m: seq<Word>, chain: seq<Block>, n: nat, i: nat)
    requires i < |chain| && n <= chain[i].words && Splits(chain[i], n) && CarveOk(base, m, chain, n, 3, i)
    ensures 4 * n < 0x1_0000_0000 && CarveOk(base, Store(m, Pos(chain, i), 4 * n), chain, n, 4, i)
  {
    var at := Pos(chain, i);
    assert Store(Store(m, at, 4 * n), at, 4 * chain[i].words) == Store(m, at, 4 * chain[i].words);
  }

  lemma SplitStored(base: nat, full: seq<Word>, chain: seq<Block>, i: nat, n: nat)
    requires Placed(base, |full|) && Encodes(base, full, chain) && i < |chain| && n <= chain[i].words && Splits(chain[i], n)
    requires chain[i].free && HeaderAt(base, full, PayloadOf(chain, i) + n, Block(chain[i].words - n - HEADER, true))
    ensures Pos(chain, i) + 2 < |full|
    ensures 4 * n < 0x1_0000_0000 && base + 4 * (Pos(chain, i) + HEADER + n) < 0x1_0000_0000
    ensures Encodes(base, StoreSplit(base, full, Pos(chain, i), n), CutAt(chain, i, n))
  {
    CutIsCut(chain, i, n);
    SplitEncodes(base, full, chain, i, n, CutAt(chain, i, n));
  }

  lemma CarveNextStep(base: nat, m: seq<Word>, chain: seq<Block>, op: Call, block: Word, k: nat, i: nat)
    requires Placed(base, |m|) && SectionOk(base, m, chain, chain, op, Carve(block, k, i)) && 3 < k
    ensures StepOk(base, m, chain, chain, op, Carve(block, k, i))
  {
    CarvedFully(base, m, chain, op.words, i);
    OffsetOf(base, block, Pos(chain, i));
    CarveNextEffect(base, m, chain, op, block, k, i, Pos(chain, i));
  }

  lemma CarveNextEffect(base: nat, m: seq<Word>, chain: seq<Block>, op: Call, block: Word, k: nat, i: nat, at: nat)
    requires op.Get? && 3 < k && Offset(base, block) == at && at + 2 < |m| && block == base + 4 * at
    requires base + 4 * (at + HEADER + op.words) < 0x1_0000_0000
    requires i < |chain| && op.words + HEADER <= chain[i].words
    ensures Section(base, m, chain, op, Carve(block, k, i)) ==
      Effect(Store(m, at + 2, base + 4 * (at + HEADER + op.words)), MarkUsed(block, i), CutAt(chain, i, op.words))
  {
  }

  /** The last store completes the split. */
  lemma CarvedFully(base: nat, m: seq<Word>, chain: seq<Block>, n: nat, i: nat)
    requires Placed(base, |m|) && i < |chain| && chain[i].free && n <= chain[i].words && Splits(chain[i], n)
    requires CarveOk(base, m, chain, n, 4, i)
    ensures var at := Pos(chain, i);
      && at + 2 < |m| && base + 4 * (at + HEADER + n) < 0x1_0000_0000
      && Encodes(base, Store(m, at + 2, base + 4 * (at + HEADER + n)), CutAt(chain, i, n))
  {
    var at := Pos(chain, i);
    var full := Store(m, at, 4 * chain[i].words);
    RemainderHeader(base, m, chain, n, i, at, full);
    SplitStored(base, full, chain, i, n);
    SplitCompleted(base, m, at, 4 * chain[i].words, n);
  }

  /** The three stores into the payload make the header of the rest. */
  lemma RemainderHeader(base: nat, m: seq<Word>, chain: seq<Block>, n: nat, i: nat, at: nat, full: seq<Word>)
    requires i < |chain| && n <= chain[i].words && Splits(chain[i], n) && CarveOk(base, m, chain, n, 4, i)
    requires at == Pos(chain, i) && full == Store(m, at, 4 * chain[i].words)
    ensures HeaderAt(base, full, at, chain[i])
    ensures HeaderAt(base, full, at + HEADER + n, Block(chain[i].words - n - HEADER, true))
  {
    EncodesHeader(base, full, chain, i);
    RemainderAt(base, m, at, at + HEADER + n, chain[i], n);
  }

  lemma RemainderAt(base: nat, m: seq<Word>, at: nat, nb: nat, b: Block, n: nat)
    requires at + Extent(b) <= |m| && 4 * b.words < 0x1_0000_0000 && n + HEADER <= b.words && nb == at + HEADER + n
    requires m[nb] == 4 * (b.words - n - HEADER) && m[nb+1] == 1 && m[nb+2] == Link(base, |m|, at + Extent(b))
    ensures HeaderAt(base, Store(m, at, 4 * b.words), nb, Block(b.words - n - HEADER, true))
  {
    assert nb + Extent(Block(b.words - n - HEADER, true)) == at + Extent(b);
  }

  lemma SplitCompleted(base: nat, m: seq<Word>, at: nat, size: Word, n: nat)
    requires at + 2 < |m| && m[at] == 4 * n && base + 4 * (at + HEADER + n) < 0x1_0000_0000
    ensures 4 * n < 0x1_0000_0000
    ensures Store(m, at + 2, base + 4 * (at + HEADER + n)) == StoreSplit(base, Store(m, at, size), at, n)
  {
    StoreBack(m, at, size, 4 * n);
  }

  lemma MarkUsedStep(base: nat, m: seq<Word>, chain: seq<Block>, start: seq<Block>, op: Call, block: Word, i: nat)
    requires Placed(base, |m|) && SectionOk(base, m, chain, start, op, MarkUsed(block, i))
    ensures StepOk(base, m, chain, start, op, MarkUsed(block, i))
  {
    SplitLayout(start, i, op.words);
    EncodesHeader(base, m, chain, i);
    FlagEncodes(base, m, chain, i, false);
    OffsetOf(base, block, Pos(chain, i));
    MarkUsedEffect(base, m, chain, op, block, i, Pos(chain, i));
    assert Answer(base, op, start) == base + 4 * PayloadOf(start, i);
  }

  lemma MarkUsedEffect(base: nat, m: seq<Word>, chain: seq<Block>, op: Call, block: Word, i: nat, at: nat)
    requires Offset(base, block) == at && at + 1 < |m| && block + 12 < 0x1_0000_0000 && i < |chain|
    ensures Section(base, m, chain, op, MarkUsed(block, i)) ==
      Effect(Store(m, at + 1, 0), Unlock(block + 12), SetFree(chain, i, false))
  {
  }

  lemma MarkFreeStep(base: nat, m: seq<Word>, chain: seq<Block>, op: Call)
    requires Placed(base, |m|) && SectionOk(base, m, chain, chain, op, MarkFree)
    ensures StepOk(base, m, chain, chain, op, MarkFree)
  {
    FlagEncodes(base, m, chain, IndexOf(chain, op.payload), true);
  }

  /** What a pass of the merging loop reads. */
  lemma MergingReads(base: nat, m: seq<Word>, chain: seq<Block>, i: nat)
    requires Placed(base, |m|) && Encodes(base, m, chain) && i < |chain|
    ensures var at := Pos(chain, i);
      && at + 2 < |m| && m[at] == 4 * chain[i].words
      && (m[at+1] != 0 <==> chain[i].free)
      && (i + 1 == |chain| ==> m[at+2] == NULL)
      && (i + 1 < |chain| ==>
            && m[at+2] == base + 4 * Pos(chain, i + 1) && Offset(base, m[at+2]) == Pos(chain, i + 1)
            && Pos(chain, i + 1) + 2 < |m| && m[Pos(chain, i + 1)] == 4 * chain[i+1].words
            && (m[Pos(chain, i + 1) + 1] != 0 <==> chain[i+1].free)
            && Joined(m[at], m[Pos(chain, i + 1)]) < 0x1_0000_0000)
  {
    EncodesHeader(base, m, chain, i);
    if i + 1 < |chain| {
      EncodesHeader(base, m, chain, i + 1);
      OffsetOf(base, m[Pos(chain, i) + 2], Pos(chain, i + 1));
    }
  }

  lemma MergingStep(base: nat, m: seq<Word>, chain: seq<Block>, start: seq<Block>, op: Call, block: Word, i: nat)
    requires Placed(base, |m|) && SectionOk(base, m, chain, start, op, Merging(block, i))
    ensures StepOk(base, m, chain, start, op, Merging(block, i))
  {
    if Seam(chain, i) {
      SeamStep(base, m, chain, start, op, block, i);
    } else {
      PassStep(base, m, chain, start, op, block, i);
    }
  }

  lemma PassStep(base: nat, m: seq<Word>, chain: seq<Block>, start: seq<Block>, op: Call, block: Word, i: nat)
    requires Placed(base, |m|) && SectionOk(base, m, chain, start, op, Merging(block, i)) && !Seam(chain, i)
    ensures StepOk(base, m, chain, start, op, Merging(block, i))
  {
    MergingReads(base, m, chain, i);
    OffsetOf(base, block, Pos(chain, i));
    PassEffect(base, m, chain, op, block, i, Pos(chain, i));
  }

  /** The loop moves on, or ends behind the last block. */
  lemma PassEffect(base: nat, m: seq<Word>, chain: seq<Block>, op: Call, block: Word, i: nat, at: nat)
    requires block != NULL && Offset(base, block) == at && at + 2 < |m|
    requires m[at+2] == NULL || m[at+1] == 0 || Read(m, Offset(base, m[at+2]) + 1) == 0
    ensures Section(base, m, chain, op, Merging(block, i)) ==
      Effect(m, if m[at+2] == NULL then Unlock(NULL) else Merging(m[at+2], i + 1), chain)
  {
  }

  lemma SeamStep(base: nat, m: seq<Word>, chain: seq<Block>, start: seq<Block>, op: Call, block: Word, i: nat)
    requires Placed(base, |m|) && SectionOk(base, m, chain, start, op, Merging(block, i)) && Seam(chain, i)
    ensures StepOk(base, m, chain, start, op, Merging(block, i))
  {
    var at := Pos(chain, i);
    MergingReads(base, m, chain, i);
    OffsetOf(base, block, at);
    SizeJoined(base, m, chain, i);
    SeamEffect(base, m, chain, op, block, i, at, Pos(chain, i + 1));
  }

  lemma SeamEffect(base: nat, m: seq<Word>, chain: seq<Block>, op: Call, block: Word, i: nat, at: nat, next: nat)
    requires block != NULL && Offset(base, block) == at && at + 2 < |m| && m[at+2] != NULL && Offset(base, m[at+2]) == next
    requires next + 2 < |m| && m[at+1] != 0 && m[next+1] != 0 && Joined(m[at], m[next]) < 0x1_0000_0000
    ensures Section(base, m, chain, op, Merging(block, i)) ==
      Effect(Store(m, at, Joined(m[at], m[next])), MergeNext(block, i), chain)
  {
  }

  /** The first store of a merge. */
  lemma SizeJoined(base: nat, m: seq<Word>, chain: seq<Block>, i: nat)
    requires Placed(base, |m|) && Encodes(base, m, chain) && Seam(chain, i)
    ensures Pos(chain, i) < |m| && Pos(chain, i + 1) < |m|
    ensures Joined(m[Pos(chain, i)], m[Pos(chain, i + 1)]) < 0x1_0000_0000
    ensures MergeNextOk(base, Store(m, Pos(chain, i), Joined(m[Pos(chain, i)], m[Pos(chain, i + 1)])), chain, i)
  {
    var at := Pos(chain, i);
    MergingReads(base, m, chain, i);
    StoreBack(m, at, Joined(m[at], m[Pos(chain, i + 1)]), 4 * chain[i].words);
  }

  lemma MergeNextStep(base: nat, m: seq<Word>, chain: seq<Block>, start: seq<Block>, op: Call, block: Word, i: nat)
    requires Placed(base, |m|) && SectionOk(base, m, chain, start, op, MergeNext(block, i))
    ensures StepOk(base, m, chain, start, op, MergeNext(block, i))
  {
    var at := Pos(chain, i);
    var before := Store(m, at, 4 * chain[i].words);
    AbsorbEncodes(base, before, chain, i);
    EncodesHeader(base, before, chain, i);
    EncodesHeader(base, before, chain, i + 1);
    OffsetOf(base, block, at);
    OffsetOf(base, m[at+2], Pos(chain, i + 1));
    var e := Section(base, m, chain, op, MergeNext(block, i));
    assert e.mem == AbsorbMem(before, at, Pos(chain, i + 1));
  }

  lemma CarveStep(base: nat, m: seq<Word>, chain: seq<Block>, op: Call, block: Word, k: nat, i: nat)
    requires Placed(base, |m|) && SectionOk(base, m, chain, chain, op, Carve(block, k, i))
    ensures StepOk(base, m, chain, chain, op, Carve(block, k, i))
  {
    if k < 3 {
      CarveHeaderStep(base, m, chain, op, block, k, i);
    } else if k == 3 {
      CarveSizeStep(base, m, chain, op, block, k, i);
    } else {
      CarveNextStep(base, m, chain, op, block, k, i);
    }
  }

  lemma GetStep(base: nat, m: seq<Word>, chain: seq<Block>, start: seq<Block>, op: Call, pc: Pc)
    requires Placed(base, |m|) && SectionOk(base, m, chain, start, op, pc)
    requires pc.Find? || pc.Test? || pc.Carve? || pc.MarkUsed?
    ensures StepOk(base, m, chain, start, op, pc)
  {
    match pc {
      case Find(block, i) => FindStep(base, m, chain, op, block, i);
      case Test(block, i) => TestStep(base, m, chain, op, block, i);
      case Carve(block, k, i) => CarveStep(base, m, chain, op, block, k, i);
      case MarkUsed(block, i) => MarkUsedStep(base, m, chain, start, op, block, i);
    }
  }

  lemma PutStep(base: nat, m: seq<Word>, chain: seq<Block>, start: seq<Block>, op: Call, pc: Pc)
    requires Placed(base, |m|) && SectionOk(base, m, chain, start, op, pc)
    requires pc.MarkFree? || pc.Merging? || pc.MergeNext?
    ensures StepOk(base, m, chain, start, op, pc)
  {
    match pc {
      case MarkFree => MarkFreeStep(base, m, chain, op);
      case Merging(block, i) => MergingStep(base, m, chain, start, op, block, i);
      case MergeNext(block, i) => MergeNextStep(base, m, chain, start, op, block, i);
    }
  }

  /** Every step inside the section takes its assertion to the next one. */
  lemma SectionStep(base: nat, m: seq<Word>, chain: seq<Block>, start: seq<Block>, op: Call, pc: Pc)
    requires Placed(base, |m|) && SectionOk(base, m, chain, start, op, pc) && InSection(pc) && !pc.Unlock?
    ensures StepOk(base, m, chain, start, op, pc)
  {
    if pc.MarkFree? || pc.Merging? || pc.MergeNext? {
      PutStep(base, m, chain, start, op, pc);
    } else {
      GetStep(base, m, chain, start, op, pc);
    }
  }

  lemma SectionStaysInside(base: nat, m: seq<Word>, chain: seq<Block>, op: Call, pc: Pc)
    requires InSection(pc) && !pc.Unlock?
    ensures InSection(Section(base, m, chain, op, pc).pc)
    ensures |Section(base, m, chain, op, pc).mem| == |m|
  {
  }

  // ---- Client writes ------------------------------------------------------

  /** A word of a live payload is no header and no part of a free block. */
  lemma ClientWord(base: nat, m: seq<Word>, chain: seq<Block>, p: nat, k: nat, v: Word)
    requires Encodes(base, m, chain) && p in Live(chain) && k < Live(chain)[p]
    ensures p + k < |m| && Encodes(base, Store(m, p + k, v), chain)
  {
    PayloadEncodes(base, m, chain, IndexOf(chain, p), k, v);
  }

  /** The same while the size word of block i holds something else. */
  lemma ClientWordAround(base: nat, m: seq<Word>, chain: seq<Block>, i: nat, size: Word, p: nat, k: nat, v: Word)
    requires i < |chain| && Pos(chain, i) < |m| && Encodes(base, Store(m, Pos(chain, i), size), chain)
    requires p in Live(chain) && k < Live(chain)[p]
    ensures p + k < |m| && Encodes(base, Store(Store(m, p + k, v), Pos(chain, i), size), chain)
    ensures p + k < Pos(chain, i) || Pos(chain, i) + (if chain[i].free then Extent(chain[i]) else HEADER) <= p + k
  {
    var at := Pos(chain, i);
    LiveClearOf(chain, p, i);
    ClientWord(base, Store(m, at, size), chain, p, k, v);
    assert Store(Store(m, p + k, v), at, size) == Store(Store(m, at, size), p + k, v);
  }

  /** Client writes do not disturb a section in progress. */
  lemma SectionUnderWrite(base: nat, m: seq<Word>, chain: seq<Block>, start: seq<Block>, op: Call, pc: Pc,
                          p: nat, k: nat, v: Word)
    requires SectionOk(base, m, chain, start, op, pc) && p in Live(chain) && k < Live(chain)[p]
    ensures p + k < |m| && SectionOk(base, Store(m, p + k, v), chain, start, op, pc)
  {
    if pc.Carve? {
      CarveUnderWrite(base, m, chain, op.words, pc.k, pc.i, p, k, v);
    } else if pc.MergeNext? {
      ClientWordAround(base, m, chain, pc.i, 4 * chain[pc.i].words, p, k, v);
    } else {
      ClientWord(base, m, chain, p, k, v);
    }
  }

  lemma CarveUnderWrite(base: nat, m: seq<Word>, chain: seq<Block>, n: nat, c: nat, i: nat, p: nat, k: nat, v: Word)
    requires i < |chain| && chain[i].free && n <= chain[i].words && Splits(chain[i], n) && c <= 4
    requires CarveOk(base, m, chain, n, c, i) && p in Live(chain) && k < Live(chain)[p]
    ensures p + k < |m| && CarveOk(base, Store(m, p + k, v), chain, n, c, i)
  {
    EncodesHeader(base, Store(m, Pos(chain, i), 4 * chain[i].words), chain, i);
    ClientWordAround(base, m, chain, i, 4 * chain[i].words, p, k, v);
  }

  // ---- Loads are stable ---------------------------------------------------

  /** A word of a live payload is no header word, and no word of a free block. */
  lemma PayloadWordApart(chain: seq<Block>, p: nat, k: nat, i: nat)
    requires p in Live(chain) && k < Live(chain)[p] && i < |chain|
    ensures p + k < Pos(chain, i) || Pos(chain, i) + (if chain[i].free then Extent(chain[i]) else HEADER) <= p + k
  {
    LiveClearOf(chain, p, i);
  }

  /** The step and a store of v at x commute. */
  predicate Commutes(base: nat, m: seq<Word>, chain: seq<Block>, op: Call, pc: Pc, x: nat, v: Word)
    requires InSection(pc) && !pc.Unlock?
  {
    var e := Section(base, m, chain, op, pc);
    Section(base, Poke(m, x, v), chain, op, pc) == e.(mem := Poke(e.mem, x, v))
  }

  lemma PokesCommute(m: seq<Word>, a: int, u: Word, b: int, v: Word)
    requires a != b
    ensures Poke(Poke(m, a, u), b, v) == Poke(Poke(m, b, v), a, u)
  {
  }

  /** What find_block and the test of split_block load. */
  lemma FindEffect(base: nat, m: seq<Word>, chain: seq<Block>, op: Call, block: Word, i: nat, at: nat)
    requires op.Get? && block != NULL && Offset(base, block) == at && at + 2 < |m|
    ensures Section(base, m, chain, op, Find(block, i)) ==
      Effect(m, if m[at+1] != 0 && m[at] >= 4 * op.words then Test(block, i) else Find(m[at+2], i + 1), chain)
    ensures Section(base, m, chain, op, Test(block, i)) ==
      Effect(m, if Wrap(m[at] - 4 * op.words) > 12 + 32 then Carve(block, 0, i) else MarkUsed(block, i), chain)
  {
  }

  lemma FindCommutes(base: nat, m: seq<Word>, chain: seq<Block>, op: Call, block: Word, i: nat, p: nat, k: nat, v: Word)
    requires Placed(base, |m|) && SectionOk(base, m, chain, chain, op, Find(block, i))
    requires p in Live(chain) && k < Live(chain)[p] && p + k < |m|
    ensures Commutes(base, m, chain, op, Find(block, i), p + k, v)
  {
    if i < |chain| {
      PosMonotone(chain, i, |chain|);
      BlockPlace(base, m, chain, block, i, p, k);
      FindCommutesAt(base, m, chain, op, Find(block, i), Pos(chain, i), p + k, v);
    } else {
      EndCommutes(base, m, chain, op, Find(block, i), p + k, v);
    }
  }

  lemma TestCommutes(base: nat, m: seq<Word>, chain: seq<Block>, op: Call, block: Word, i: nat, p: nat, k: nat, v: Word)
    requires Placed(base, |m|) && SectionOk(base, m, chain, chain, op, Test(block, i))
    requires p in Live(chain) && k < Live(chain)[p] && p + k < |m|
    ensures Commutes(base, m, chain, op, Test(block, i), p + k, v)
  {
    BlockPlace(base, m, chain, block, i, p, k);
    FindCommutesAt(base, m, chain, op, Test(block, i), Pos(chain, i), p + k, v);
  }

  /** Where the header of block i is, and that word k of payload p is elsewhere. */
  lemma BlockPlace(base: nat, m: seq<Word>, chain: seq<Block>, block: Word, i: nat, p: nat, k: nat)
    requires Placed(base, |m|) && Encodes(base, m, chain) && i < |chain| && block == base + 4 * Pos(chain, i)
    requires p in Live(chain) && k < Live(chain)[p]
    ensures block != NULL && Offset(base, block) == Pos(chain, i) && Pos(chain, i) + 2 < |m|
    ensures !(Pos(chain, i) <= p + k <= Pos(chain, i) + 2) && block + 12 < 0x1_0000_0000
  {
    EncodesHeader(base, m, chain, i);
    OffsetOf(base, block, Pos(chain, i));
    PayloadWordApart(chain, p, k, i);
  }

  lemma EndCommutes(base: nat, m: seq<Word>, chain: seq<Block>, op: Call, pc: Pc, x: nat, v: Word)
    requires pc.Find? && pc.block == NULL
    ensures Commutes(base, m, chain, op, pc, x, v)
  {
  }

  lemma FindPlace(base: nat, m: seq<Word>, chain: seq<Block>, start: seq<Block>, op: Call, pc: Pc)
    requires Placed(base, |m|) && SectionOk(base, m, chain, start, op, pc) && (pc.Find? || pc.Test?) && pc.i < |chain|
    ensures op.Get? && pc.block != NULL && Offset(base, pc.block) == Pos(chain, pc.i) && Pos(chain, pc.i) + 2 < |m|
  {
    EncodesHeader(base, m, chain, pc.i);
    OffsetOf(base, pc.block, Pos(chain, pc.i));
  }

  lemma FindAt(base: nat, m: seq<Word>, chain: seq<Block>, op: Call, pc: Pc, at: nat, x: nat, v: Word)
    requires op.Get? && (pc.Find? || pc.Test?) && pc.block != NULL && Offset(base, pc.block) == at
    requires at + 2 < |m| && x < |m| && !(at <= x <= at + 2)
    ensures Section(base, m, chain, op, pc).mem == m
    ensures Section(base, Store(m, x, v), chain, op, pc) == Section(base, m, chain, op, pc).(mem := Store(m, x, v))
  {
    FindEffect(base, m, chain, op, pc.block, pc.i, at);
    FindEffect(base, Store(m, x, v), chain, op, pc.block, pc.i, at);
  }

  lemma FindCommutesAt(base: nat, m: seq<Word>, chain: seq<Block>, op: Call, pc: Pc, at: nat, x: nat, v: Word)
    requires op.Get? && (pc.Find? || pc.Test?) && pc.block != NULL && Offset(base, pc.block) == at
    requires at + 2 < |m| && x < |m| && !(at <= x <= at + 2)
    ensures Commutes(base, m, chain, op, pc, x, v)
  {
    FindAt(base, m, chain, op, pc, at, x, v);
    PassCommutes(base, m, chain, op, pc, x, v);
  }

  /** The stores of a split all go into the free block. */
  lemma CarveCommutes(base: nat, m: seq<Word>, chain: seq<Block>, op: Call, block: Word, c: nat, i: nat, p: nat, k: nat, v: Word)
    requires Placed(base, |m|) && SectionOk(base, m, chain, chain, op, Carve(block, c, i))
    requires p in Live(chain) && k < Live(chain)[p] && p + k < |m|
    ensures Commutes(base, m, chain, op, Carve(block, c, i), p + k, v)
  {
    var at := Pos(chain, i);
    OffsetOf(base, block, at);
    PayloadWordApart(chain, p, k, i);
    CarveCommutesAt(base, m, chain, op, block, c, i, at, p + k, v);
  }

  lemma CarveCommutesAt(base: nat, m: seq<Word>, chain: seq<Block>, op: Call, block: Word, c: nat, i: nat, at: nat, x: nat, v: Word)
    requires Placed(base, |m|) && op.Get? && c <= 4 && i < |chain| && x < |m| && Offset(base, block) == at
    requires op.words <= chain[i].words && Splits(chain[i], op.words) && CarveOk(base, m, chain, op.words, c, i)
    requires at == Pos(chain, i) && block == base + 4 * at && !(at <= x < at + Extent(chain[i]))
    ensures Commutes(base, m, chain, op, Carve(block, c, i), x, v)
  {
    if c < 3 {
      CarveHeaderCommutes(base, m, chain, op, block, c, i, at, chain[i].words, x, v);
    } else if c == 3 {
      CarveSizeEffect(base, m, chain, op, block, c, i, at);
      CarveSizeEffect(base, Store(m, x, v), chain, op, block, c, i, at);
      PokesCommute(m, at, 4 * op.words, x, v);
    } else {
      CarveNextEffect(base, m, chain, op, block, c, i, at);
      CarveNextEffect(base, Store(m, x, v), chain, op, block, c, i, at);
      PokesCommute(m, at + 2, base + 4 * (at + HEADER + op.words), x, v);
    }
  }

  lemma CarveHeaderCommutes(base: nat, m: seq<Word>, chain: seq<Block>, op: Call, block: Word, c: nat, i: nat,
                            at: nat, words: nat, x: nat, v: Word)
    requires op.Get? && c < 3 && Offset(base, block) == at && at + HEADER + op.words + 2 < |m| && x < |m|
    requires m[at] == 4 * words < 0x1_0000_0000 && op.words + HEADER <= words && !(at <= x < at + HEADER + words)
    ensures Commutes(base, m, chain, op, Carve(block, c, i), x, v)
  {
    var n := op.words;
    var u := if c == 0 then 4 * (words - n - HEADER) else if c == 1 then 1 else m[at+2];
    CarveEffect(base, m, chain, op, block, c, i, at, words);
    CarveEffect(base, Store(m, x, v), chain, op, block, c, i, at, words);
    PokesCommute(m, at + HEADER + n + c, u, x, v);
  }

  lemma MarkUsedCommutes(base: nat, m: seq<Word>, chain: seq<Block>, start: seq<Block>, op: Call, block: Word, i: nat, p: nat, k: nat, v: Word)
    requires Placed(base, |m|) && SectionOk(base, m, chain, start, op, MarkUsed(block, i))
    requires p in Live(chain) && k < Live(chain)[p] && p + k < |m|
    ensures Commutes(base, m, chain, op, MarkUsed(block, i), p + k, v)
  {
    SplitLayout(start, i, op.words);
    BlockPlace(base, m, chain, block, i, p, k);
    MarkUsedCommutesAt(base, m, chain, op, block, i, Pos(chain, i), p + k, v);
  }

  lemma MarkUsedCommutesAt(base: nat, m: seq<Word>, chain: seq<Block>, op: Call, block: Word, i: nat, at: nat, x: nat, v: Word)
    requires Offset(base, block) == at && at + 1 < |m| && block + 12 < 0x1_0000_0000 && i < |chain| && x < |m| && x != at + 1
    ensures Commutes(base, m, chain, op, MarkUsed(block, i), x, v)
  {
    MarkUsedEffect(base, m, chain, op, block, i, at);
    MarkUsedEffect(base, Store(m, x, v), chain, op, block, i, at);
    PokesCommute(m, at + 1, 0, x, v);
  }

  lemma MarkFreeCommutes(base: nat, m: seq<Word>, chain: seq<Block>, op: Call, p: nat, k: nat, v: Word)
    requires SectionOk(base, m, chain, chain, op, MarkFree)
    requires p in Live(chain) && k < Live(chain)[p]
    ensures Commutes(base, m, chain, op, MarkFree, p + k, v)
  {
    PayloadWordApart(chain, p, k, IndexOf(chain, op.payload));
    PokesCommute(m, op.payload - HEADER + 1, 1, p + k, v);
  }

  lemma MergingCommutes(base: nat, m: seq<Word>, chain: seq<Block>, op: Call, block: Word, i: nat, p: nat, k: nat, v: Word)
    requires Placed(base, |m|) && Encodes(base, m, chain) && i < |chain| && block == base + 4 * Pos(chain, i)
    requires p in Live(chain) && k < Live(chain)[p]
    ensures Commutes(base, m, chain, op, Merging(block, i), p + k, v)
  {
    if Seam(chain, i) {
      SeamCommutes(base, m, chain, op, block, i, p, k, v);
    } else {
      ClientWord(base, m, chain, p, k, v);
      PassEffects(base, m, Store(m, p + k, v), chain, op, block, i, Pos(chain, i));
      PassCommutes(base, m, chain, op, Merging(block, i), p + k, v);
    }
  }

  lemma PassCommutes(base: nat, m: seq<Word>, chain: seq<Block>, op: Call, pc: Pc, x: nat, v: Word)
    requires InSection(pc) && !pc.Unlock? && x < |m| && Section(base, m, chain, op, pc).mem == m
    requires Section(base, Store(m, x, v), chain, op, pc) == Section(base, m, chain, op, pc).(mem := Store(m, x, v))
    ensures Commutes(base, m, chain, op, pc, x, v)
  {
  }

  lemma SeamCommutes(base: nat, m: seq<Word>, chain: seq<Block>, op: Call, block: Word, i: nat, p: nat, k: nat, v: Word)
    requires Placed(base, |m|) && Encodes(base, m, chain) && i < |chain| && block == base + 4 * Pos(chain, i)
    requires p in Live(chain) && k < Live(chain)[p]
    requires Seam(chain, i)
    ensures Commutes(base, m, chain, op, Merging(block, i), p + k, v)
  {
    OffsetOf(base, block, Pos(chain, i));
    MergingReads(base, m, chain, i);
    LiveInside(chain, p);
    PayloadWordApart(chain, p, k, i);
    PayloadWordApart(chain, p, k, i + 1);
    SeamCommutesAt(base, m, chain, op, block, i, Pos(chain, i), Pos(chain, i + 1), p + k, v);
  }

  lemma PassEffects(base: nat, m: seq<Word>, m': seq<Word>, chain: seq<Block>, op: Call, block: Word, i: nat, at: nat)
    requires Placed(base, |m|) && |m'| == |m| && Encodes(base, m, chain) && Encodes(base, m', chain)
    requires i < |chain| && !Seam(chain, i) && at == Pos(chain, i) && block == base + 4 * at
    ensures Section(base, m', chain, op, Merging(block, i)) == Section(base, m, chain, op, Merging(block, i)).(mem := m')
    ensures Section(base, m, chain, op, Merging(block, i)).mem == m
  {
    OffsetOf(base, block, at);
    MergingReads(base, m, chain, i);
    MergingReads(base, m', chain, i);
    PassEffect(base, m, chain, op, block, i, at);
    PassEffect(base, m', chain, op, block, i, at);
  }

  lemma SeamCommutesAt(base: nat, m: seq<Word>, chain: seq<Block>, op: Call, block: Word, i: nat, at: nat, next: nat, x: nat, v: Word)
    requires block != NULL && Offset(base, block) == at && at + 2 < |m| && m[at+2] != NULL && Offset(base, m[at+2]) == next
    requires next + 2 < |m| && m[at+1] != 0 && m[next+1] != 0 && Joined(m[at], m[next]) < 0x1_0000_0000
    requires x < |m| && !(at <= x <= at + 2) && !(next <= x <= next + 2)
    ensures Commutes(base, m, chain, op, Merging(block, i), x, v)
  {
    SeamEffect(base, m, chain, op, block, i, at, next);
    SeamEffect(base, Store(m, x, v), chain, op, block, i, at, next);
    PokesCommute(m, at, Joined(m[at], m[next]), x, v);
  }

  lemma MergeNextEffect(base: nat, m: seq<Word>, chain: seq<Block>, op: Call, block: Word, i: nat, at: nat, next: nat)
    requires Offset(base, block) == at && at + 2 < |m| && Offset(base, m[at+2]) == next && next + 2 < |m| && i + 1 < |chain|
    ensures Section(base, m, chain, op, MergeNext(block, i)) ==
      Effect(Store(m, at + 2, m[next+2]), Merging(block, i), FuseAt(chain, i))
  {
  }

  lemma MergeNextCommutes(base: nat, m: seq<Word>, chain: seq<Block>, start: seq<Block>, op: Call, pc: Pc, p: nat, k: nat, v: Word)
    requires Placed(base, |m|) && SectionOk(base, m, chain, start, op, pc) && pc.MergeNext?
    requires p in Live(chain) && k < Live(chain)[p] && p + k < |m|
    ensures Commutes(base, m, chain, op, pc, p + k, v)
  {
    var i := pc.i;
    MergeNextReads(base, m, chain, i, pc.block);
    PayloadWordApart(chain, p, k, i);
    PayloadWordApart(chain, p, k, i + 1);
    MergeNextCommutesAt(base, m, chain, op, pc.block, i, Pos(chain, i), Pos(chain, i + 1), p + k, v);
  }

  lemma MergeNextReads(base: nat, m: seq<Word>, chain: seq<Block>, i: nat, block: Word)
    requires Placed(base, |m|) && Seam(chain, i) && MergeNextOk(base, m, chain, i) && block == base + 4 * Pos(chain, i)
    ensures var at, next := Pos(chain, i), Pos(chain, i + 1);
      at + 2 < next && next + 2 < |m| && Offset(base, block) == at && Offset(base, m[at+2]) == next
  {
    OffsetOf(base, block, Pos(chain, i));
    MergingReads(base, Store(m, Pos(chain, i), 4 * chain[i].words), chain, i);
  }

  lemma MergeNextCommutesAt(base: nat, m: seq<Word>, chain: seq<Block>, op: Call, block: Word, i: nat, at: nat, next: nat, x: nat, v: Word)
    requires Offset(base, block) == at && at + 2 < next && next + 2 < |m| && Offset(base, m[at+2]) == next && i + 1 < |chain|
    requires x < |m| && x != at + 2 && x != next + 2
    ensures Commutes(base, m, chain, op, MergeNext(block, i), x, v)
  {
    MergeNextEffect(base, m, chain, op, block, i, at, next);
    MergeNextEffect(base, Store(m, x, v), chain, op, block, i, at, next);
    PokesCommute(m, at + 2, m[next+2], x, v);
  }

  lemma ChainSize(base: nat, m: seq<Word>, chain: seq<Block>, start: seq<Block>, op: Call, pc: Pc)
    requires SectionOk(base, m, chain, start, op, pc)
    ensures Total(chain) == |m|
  {
  }

  lemma SectionCommutes(base: nat, m: seq<Word>, chain: seq<Block>, start: seq<Block>, op: Call, pc: Pc, p: nat, k: nat, v: Word)
    requires Placed(base, |m|) && SectionOk(base, m, chain, start, op, pc) && InSection(pc) && !pc.Unlock?
    requires p in Live(chain) && k < Live(chain)[p]
    ensures Commutes(base, m, chain, op, pc, p + k, v)
  {
    LiveInside(chain, p);
    ChainSize(base, m, chain, start, op, pc);
    if pc.Find? {
      FindCommutes(base, m, chain, op, pc.block, pc.i, p, k, v);
    } else if pc.Test? {
      TestCommutes(base, m, chain, op, pc.block, pc.i, p, k, v);
    } else if pc.Carve? {
      CarveCommutes(base, m, chain, op, pc.block, pc.k, pc.i, p, k, v);
    } else if pc.Merging? {
      MergingCommutes(base, m, chain, op, pc.block, pc.i, p, k, v);
    } else if pc.MergeNext? {
      MergeNextCommutes(base, m, chain, start, op, pc, p, k, v);
    } else if pc.MarkUsed? {
      MarkUsedCommutes(base, m, chain, start, op, pc.block, pc.i, p, k, v);
    } else {
      MarkFreeCommutes(base, m, chain, op, p, k, v);
    }
  }

  /** A step of the section makes at most one store, but may load several words.
      Taking the loads together loses no behaviour: whatever another CPU does before
      the step, the step loads the same values, goes on at the same place, and leaves
      the memory as if it had come first. */
  lemma LoadsAreStable(base: nat, s: State, t: Step)
    requires Inv(base, s) && s.lock && Enabled(s, t) && t.c != s.holder && !Top(s.cpus[s.holder]).pc.Unlock?
    ensures var ctx := Top(s.cpus[s.holder]);
      var e := Section(base, s.mem, s.chain, ctx.op, ctx.pc);
      Section(base, Apply(base, s, t).mem, s.chain, ctx.op, ctx.pc) ==
      if t.Write? then e.(mem := Poke(e.mem, t.payload + t.k, t.v)) else e
  {
    if t.Write? {
      WriteCommutes(base, s, t);
    } else {
      NotHolding(base, s, t.c);
      QuietStep(base, s, t);
    }
  }

  lemma WriteCommutes(base: nat, s: State, t: Step)
    requires Inv(base, s) && s.lock && Enabled(s, t) && t.Write? && !Top(s.cpus[s.holder]).pc.Unlock?
    ensures var ctx := Top(s.cpus[s.holder]); Commutes(base, s.mem, s.chain, ctx.op, ctx.pc, t.payload + t.k, t.v)
  {
    var ctx := Top(s.cpus[s.holder]);
    SectionCommutes(base, s.mem, s.chain, s.start, ctx.op, ctx.pc, t.payload, t.k, t.v);
  }

  lemma NotHolding(base: nat, s: State, c: nat)
    requires Inv(base, s) && s.lock && Running(s, c) && c != s.holder
    ensures !InSection(Top(s.cpus[c]).pc)
  {
    assert !Holding(s.cpus[c]);
  }

  // ---- The invariant holds in every reachable state -----------------------

  /** A step of a CPU that is not inside the section, before or after it. */
  lemma OutsideStep(base: nat, s: State, c: nat, cpu: Cpu)
    requires Inv(base, s) && c < |s.cpus| && CpuOk(cpu)
    requires !Holding(cpu) && !Holding(s.cpus[c])
    ensures Inv(base, SetCpu(s, c, cpu))
  {
  }

  lemma SetTopOk(cpu: Cpu, ctx: Context, enabled: bool)
    requires CpuOk(cpu) && TopOk(enabled, ctx) && ctx.resume == Top(cpu).resume
    ensures CpuOk(SetTop(cpu, ctx).(enabled := enabled)) && Top(SetTop(cpu, ctx)) == ctx
  {
  }

  lemma InterruptOk(cpu: Cpu, masked: bool)
    requires CpuOk(cpu) && cpu.enabled
    ensures CpuOk(Cpu(!masked, cpu.stack + [Context(Idle, Get(0), false, false, true)]))
    ensures !Holding(cpu)
  {
  }

  lemma ReturnOk(cpu: Cpu)
    requires CpuOk(cpu) && 1 < |cpu.stack| && Top(cpu).pc.Idle?
    ensures var cpu' := Cpu(Top(cpu).resume, cpu.stack[..|cpu.stack| - 1]); CpuOk(cpu') && !Holding(cpu')
  {
    var n := |cpu.stack| - 1;
    assert SuspendedOk(cpu.stack[n-1]) && OpOk(cpu.stack[n-1].op);
    assert cpu.stack[n].resume;
  }

  lemma WriteStep(base: nat, s: State, t: Step)
    requires Inv(base, s) && Enabled(s, t) && t.Write?
    ensures Inv(base, Apply(base, s, t))
  {
    if s.lock {
      var ctx := Top(s.cpus[s.holder]);
      SectionUnderWrite(base, s.mem, s.chain, s.start, ctx.op, ctx.pc, t.payload, t.k, t.v);
    } else {
      ClientWord(base, s.mem, s.chain, t.payload, t.k, t.v);
    }
    assert Apply(base, s, t) == s.(mem := Store(s.mem, t.payload + t.k, t.v));
  }

  /** The step that takes the lock. */
  lemma AcquireStep(base: nat, s: State, c: nat)
    requires Inv(base, s) && Enabled(s, Advance(c)) && Top(s.cpus[c]).pc.Spin? && !s.lock
    ensures Inv(base, AdvanceCpu(base, s, c))
  {
    var cpu := s.cpus[c];
    var ctx := Top(cpu);
    var first := if ctx.op.Get? then Find(Wrap(base), 0) else MarkFree;
    SetTopOk(cpu, ctx.(pc := first), cpu.enabled);
  }

  lemma HolderStep(base: nat, s: State, c: nat)
    requires Inv(base, s) && Enabled(s, Advance(c)) && Holding(s.cpus[c]) && !Top(s.cpus[c]).pc.Unlock?
    ensures Inv(base, AdvanceCpu(base, s, c))
  {
    var cpu := s.cpus[c];
    var ctx := Top(cpu);
    var e := Section(base, s.mem, s.chain, ctx.op, ctx.pc);
    SectionStep(base, s.mem, s.chain, s.start, ctx.op, ctx.pc);
    SectionStaysInside(base, s.mem, s.chain, ctx.op, ctx.pc);
    SetTopOk(cpu, ctx.(pc := e.pc), cpu.enabled);
    HolderMoved(base, s, c, SetTop(cpu, ctx.(pc := e.pc)), e);
  }

  lemma HolderMoved(base: nat, s: State, c: nat, cpu: Cpu, e: Effect)
    requires Inv(base, s) && c < |s.cpus| && Holding(s.cpus[c]) && CpuOk(cpu) && Holding(cpu)
    requires |e.mem| == |s.mem| && Top(cpu).pc == e.pc && SectionOk(base, e.mem, e.chain, s.start, Top(cpu).op, e.pc)
    ensures Inv(base, SetCpu(s, c, cpu).(mem := e.mem, chain := e.chain))
  {
  }

  lemma AtomicCoalesced(op: Call, start: seq<Block>)
    requires Coalesced(start)
    ensures Coalesced(Atomic(op, start))
  {
    if op.Get? {
      AllocateKeepsCoalesced(start, op.words);
    } else if op.payload in Live(start) {
      ReleaseLive(start, IndexOf(start, op.payload));
    }
  }

  lemma ReleaseStep(base: nat, s: State, c: nat)
    requires Inv(base, s) && Enabled(s, Advance(c)) && Top(s.cpus[c]).pc.Unlock?
    ensures Inv(base, AdvanceCpu(base, s, c))
  {
    var cpu := s.cpus[c];
    var ctx := Top(cpu);
    SetTopOk(cpu, ctx.(pc := Restore(ctx.pc.result)), cpu.enabled);
    AtomicCoalesced(ctx.op, s.start);
  }

  /** The steps before the lock is tried and after it has been released. */
  lemma ProtocolStep(base: nat, s: State, c: nat)
    requires Inv(base, s) && Enabled(s, Advance(c))
    requires var pc := Top(s.cpus[c]).pc; pc.Save? || pc.Disable? || pc.Restore?
    ensures Inv(base, AdvanceCpu(base, s, c))
  {
    var cpu := s.cpus[c];
    var ctx := Top(cpu);
    var enabled := if ctx.pc.Save? then cpu.enabled else if ctx.pc.Disable? then false else ctx.saved;
    var next := if ctx.pc.Save? then ctx.(pc := Disable, saved := cpu.enabled)
                else if ctx.pc.Disable? then ctx.(pc := Spin) else ctx.(pc := Idle);
    SetTopOk(cpu, next, enabled);
    OutsideStep(base, s, c, SetTop(cpu, next).(enabled := enabled));
  }

  lemma AdvanceStep(base: nat, s: State, c: nat)
    requires Inv(base, s) && Enabled(s, Advance(c))
    ensures Inv(base, AdvanceCpu(base, s, c))
  {
    var pc := Top(s.cpus[c]).pc;
    if pc.Save? || pc.Disable? || pc.Restore? {
      ProtocolStep(base, s, c);
    } else if pc.Spin? {
      if !s.lock { AcquireStep(base, s, c); }
    } else if pc.Unlock? {
      ReleaseStep(base, s, c);
    } else {
      HolderStep(base, s, c);
    }
  }

  lemma EnterStep(base: nat, s: State, c: nat, op: Call)
    requires Inv(base, s) && Enabled(s, Enter(c, op))
    ensures Inv(base, Apply(base, s, Enter(c, op)))
  {
    var cpu := s.cpus[c];
    var ctx := Top(cpu).(pc := Save, op := op, entry := cpu.enabled);
    SetTopOk(cpu, ctx, cpu.enabled);
    OutsideStep(base, s, c, SetTop(cpu, ctx));
  }

  lemma InterruptStep(base: nat, s: State, c: nat, masked: bool)
    requires Inv(base, s) && Enabled(s, Interrupt(c, masked))
    ensures Inv(base, Apply(base, s, Interrupt(c, masked)))
  {
    InterruptOk(s.cpus[c], masked);
    OutsideStep(base, s, c, Cpu(!masked, s.cpus[c].stack + [Context(Idle, Get(0), false, false, true)]));
  }

  lemma ReturnStep(base: nat, s: State, c: nat)
    requires Inv(base, s) && Enabled(s, Return(c))
    ensures Inv(base, Apply(base, s, Return(c)))
  {
    var cpu := s.cpus[c];
    ReturnOk(cpu);
    OutsideStep(base, s, c, Cpu(Top(cpu).resume, cpu.stack[..|cpu.stack| - 1]));
  }

  lemma InvStep(base: nat, s: State, t: Step)
    requires Inv(base, s) && Enabled(s, t)
    ensures Inv(base, Apply(base, s, t))
  {
    match t {
      case Enter(c, op) => EnterStep(base, s, c, op);
      case SetInterrupts(c, on) => OutsideStep(base, s, c, s.cpus[c].(enabled := on));
      case Interrupt(c, masked) => InterruptStep(base, s, c, masked);
      case Return(c) => ReturnStep(base, s, c);
      case Advance(c) => AdvanceStep(base, s, c);
      case Write(c, p, k, v) => WriteStep(base, s, t);
    }
  }

  // ---- Results over every run ---------------------------------------------

  /** Any number of CPUs, none inside the allocator, and the heap as memory_init
      leaves it. */
  predicate Initial(base: nat, s: State)
  {
    && Placed(base, |s.mem|) && HEADER <= |s.mem| && !s.lock
    && s.chain == [Block(|s.mem| - HEADER, true)] && Encodes(base, s.mem, s.chain)
    && forall c :: 0 <= c < |s.cpus| ==> |s.cpus[c].stack| == 1 && s.cpus[c].stack[0].pc.Idle? && OpOk(s.cpus[c].stack[0].op)
  }

  predicate Possible(base: nat, s: State, ts: seq<Step>)
    decreases |ts|
  {
    ts == [] || (Enabled(s, ts[0]) && Possible(base, Apply(base, s, ts[0]), ts[1..]))
  }

  function StateAfter(base: nat, s: State, ts: seq<Step>): State
    requires Possible(base, s, ts)
    decreases |ts|
  {
    if ts == [] then s else StateAfter(base, Apply(base, s, ts[0]), ts[1..])
  }

  lemma {:induction false} InvAlways(base: nat, s: State, ts: seq<Step>)
    requires Inv(base, s) && Possible(base, s, ts)
    ensures Inv(base, StateAfter(base, s, ts))
    decreases |ts|
  {
    if ts != [] {
      InvStep(base, s, ts[0]);
      InvAlways(base, Apply(base, s, ts[0]), ts[1..]);
    }
  }

  /** Whatever CPUs and interrupts do, in every reachable state: at most one CPU
      is inside the heap section; it has interrupts off; no context of it, at any
      depth, is spinning; and while the lock is free the chain tiles the heap
      without free neighbours. */
  lemma MutualExclusion(base: nat, s0: State, ts: seq<Step>)
    requires Initial(base, s0) && Possible(base, s0, ts)
    ensures var s := StateAfter(base, s0, ts);
      && (forall c, d :: 0 <= c < |s.cpus| && 0 <= d < |s.cpus| && Holding(s.cpus[c]) && Holding(s.cpus[d]) ==> c == d)
      && (forall c :: 0 <= c < |s.cpus| && Holding(s.cpus[c]) ==> s.lock && !s.cpus[c].enabled)
      && (forall c, j :: 0 <= c < |s.cpus| && Holding(s.cpus[c]) && 0 <= j < |s.cpus[c].stack|
                         ==> !s.cpus[c].stack[j].pc.Spin?)
      && (!s.lock ==> Encodes(base, s.mem, s.chain) && Coalesced(s.chain))
  {
    InitialInv(base, s0);
    InvAlways(base, s0, ts);
    var s := StateAfter(base, s0, ts);
    forall c, j | 0 <= c < |s.cpus| && Holding(s.cpus[c]) && 0 <= j < |s.cpus[c].stack|
      ensures !s.cpus[c].stack[j].pc.Spin?
    {
      assert CpuOk(s.cpus[c]);
      if j < |s.cpus[c].stack| - 1 { assert SuspendedOk(s.cpus[c].stack[j]); }
    }
  }

  lemma InitialInv(base: nat, s: State)
    requires Initial(base, s)
    ensures Inv(base, s)
  {
    assert !Seam(s.chain, 0);
  }

  /** A call leaves the interrupt flag as it found it. */
  lemma FlagRestored(base: nat, s0: State, ts: seq<Step>, c: nat)
    requires Initial(base, s0) && Possible(base, s0, ts)
    requires var s := StateAfter(base, s0, ts); Running(s, c) && Top(s.cpus[c]).pc.Restore?
    ensures var s := StateAfter(base, s0, ts);
      Apply(base, s, Advance(c)).cpus[c].enabled == Top(s.cpus[c]).entry
  {
    InitialInv(base, s0);
    InvAlways(base, s0, ts);
    assert CpuOk(StateAfter(base, s0, ts).cpus[c]);
  }

  /** When a section ends, its many stores have had exactly the effect of the one
      allocation or release on the chain that was there when it began, and it
      returns the block that allocation picks. */
  lemma SectionIsAtomic(base: nat, s0: State, ts: seq<Step>, c: nat)
    requires Initial(base, s0) && Possible(base, s0, ts)
    requires var s := StateAfter(base, s0, ts); Running(s, c) && Top(s.cpus[c]).pc.Unlock?
    ensures var s := StateAfter(base, s0, ts);
      && s.chain == Atomic(Top(s.cpus[c]).op, s.start)
      && Top(s.cpus[c]).pc.result == Answer(base, Top(s.cpus[c]).op, s.start)
      && Encodes(base, s.mem, s.chain) && Coalesced(s.chain)
  {
    InitialInv(base, s0);
    InvAlways(base, s0, ts);
    var s := StateAfter(base, s0, ts);
    assert Holding(s.cpus[c]);
    AtomicCoalesced(Top(s.cpus[c]).op, s.start);
  }

  // ---- Linearisation ------------------------------------------------------

  /** The chain as the last finished section left it. */
  function Committed(s: State): seq<Block> { if s.lock then s.start else s.chain }

  /** The call whose section ends with this step. */
  function Finishing(s: State, t: Step): seq<Call>
    requires Enabled(s, t)
  {
    if t.Advance? && Top(s.cpus[t.c]).pc.Unlock? then [Top(s.cpus[t.c]).op] else []
  }

  /** The calls in the order in which their sections ended. */
  function Finished(base: nat, s: State, ts: seq<Step>): seq<Call>
    requires Possible(base, s, ts)
    decreases |ts|
  {
    if ts == [] then [] else Finishing(s, ts[0]) + Finished(base, Apply(base, s, ts[0]), ts[1..])
  }

  lemma CommitStep(base: nat, s: State, t: Step)
    requires Inv(base, s) && Enabled(s, t)
    ensures Finishing(s, t) == [] ==> Committed(Apply(base, s, t)) == Committed(s)
    ensures Finishing(s, t) != [] ==>
      var c := Finishing(s, t)[0]; Legal(Committed(s), c) && Committed(Apply(base, s, t)) == After(Committed(s), c)
  {
    if t.Advance? && InSection(Top(s.cpus[t.c]).pc) { assert Holding(s.cpus[t.c]); }
  }

  lemma {:induction false} CommitRun(base: nat, s: State, ts: seq<Step>)
    requires Inv(base, s) && Possible(base, s, ts)
    ensures LegalRun(Committed(s), Finished(base, s, ts))
    ensures Committed(StateAfter(base, s, ts)) == Run(Committed(s), Finished(base, s, ts))
    decreases |ts|
  {
    if ts != [] {
      var next := Apply(base, s, ts[0]);
      InvStep(base, s, ts[0]);
      CommitStep(base, s, ts[0]);
      CommitRun(base, next, ts[1..]);
      var rest := Finished(base, next, ts[1..]);
      if Finishing(s, ts[0]) == [] {
        assert [] + rest == rest;
      } else {
        RunNext(Committed(s), Finishing(s, ts[0])[0], rest);
      }
    }
  }

  /** Every interleaved run is linearisable: whenever the lock is free, the heap is
      the one that the finished calls make of the initial block when they run one
      after the other, in the order in which their sections ended; and a call whose
      section is about to end returns what it would return after those. */
  lemma Linearised(base: nat, s0: State, ts: seq<Step>)
    requires Initial(base, s0) && Possible(base, s0, ts)
    ensures var s := StateAfter(base, s0, ts); var cs := Finished(base, s0, ts);
      && LegalRun(OneBlock(|s0.mem|), cs)
      && (!s.lock ==> s.chain == Run(OneBlock(|s0.mem|), cs) && Encodes(base, s.mem, s.chain))
      && (forall c :: 0 <= c < |s.cpus| && Running(s, c) && Top(s.cpus[c]).pc.Unlock? ==>
            Top(s.cpus[c]).pc.result == Answer(base, Top(s.cpus[c]).op, Run(OneBlock(|s0.mem|), cs)))
  {
    InitialInv(base, s0);
    InvAlways(base, s0, ts);
    CommitRun(base, s0, ts);
    var s := StateAfter(base, s0, ts);
    forall c | 0 <= c < |s.cpus| && Running(s, c) && Top(s.cpus[c]).pc.Unlock?
      ensures Top(s.cpus[c]).pc.result == Answer(base, Top(s.cpus[c]).op, Committed(s))
    {
      assert Holding(s.cpus[c]);
    }
  }

  /** So what is true of sequential runs is true of interleaved ones: once the lock
      is free, freeing what is live, in any order, leaves the block that memory_init
      created. */
  lemma InterleavedThenFreeAll(base: nat, s0: State, ts: seq<Step>, ps: seq<nat>)
    requires Initial(base, s0) && Possible(base, s0, ts) && !StateAfter(base, s0, ts).lock
    requires ListsLive(StateAfter(base, s0, ts).chain, ps)
    ensures ReleaseAll(StateAfter(base, s0, ts).chain, ps) == OneBlock(|s0.mem|)
  {
    var chain := StateAfter(base, s0, ts).chain;
    assert Sound(chain, |s0.mem|) by {
      Linearised(base, s0, ts);
      OneBlockSound(|s0.mem|);
      CallsKeep(OneBlock(|s0.mem|), Finished(base, s0, ts));
    }
    ReleaseAllRestoresInitial(chain, ps);
  }

  // ---- Live blocks under interleaving -------------------------------------

  /** Words [from, to) are the same in both memories. */
  predicate SameIn(m: seq<Word>, m': seq<Word>, from: int, to: int)
  {
    forall x :: from <= x < to ==> Read(m', x) == Read(m, x)
  }

  /** A store into block i, which is free or is not block p, leaves the header
      and contents of live block p alone. */
  lemma StoreElsewhere(m: seq<Word>, chain: seq<Block>, i: nat, x: nat, v: Word, p: nat)
    requires p in Live(chain) && i < |chain| && Pos(chain, i) <= x < Pos(chain, i) + Extent(chain[i])
    requires chain[i].free || p != PayloadOf(chain, i)
    ensures SameIn(m, Poke(m, x, v), p - HEADER, p + Live(chain)[p])
  {
    LiveClearOf(chain, p, i);
  }

  /** What a section step may do to the blocks that are live. */
  predicate Keeps(m: seq<Word>, chain: seq<Block>, e: Effect, p: nat)
    requires p in Live(chain)
  {
    && p in Live(e.chain) && Live(e.chain)[p] == Live(chain)[p]
    && SameIn(m, e.mem, p - HEADER, p + Live(chain)[p])
  }

  lemma CarveKeepsLive(base: nat, m: seq<Word>, chain: seq<Block>, op: Call, block: Word, k: nat, i: nat, p: nat)
    requires Placed(base, |m|) && SectionOk(base, m, chain, chain, op, Carve(block, k, i)) && p in Live(chain)
    ensures Keeps(m, chain, Section(base, m, chain, op, Carve(block, k, i)), p)
  {
    var at, n := Pos(chain, i), op.words;
    OffsetOf(base, block, at);
    if k < 3 {
      var v := if k == 0 then 4 * (chain[i].words - n - HEADER) else if k == 1 then 1 else m[at+2];
      CarveEffect(base, m, chain, op, block, k, i, at, chain[i].words);
      StoreElsewhere(m, chain, i, at + HEADER + n + k, v, p);
    } else if k == 3 {
      CarveSizeEffect(base, m, chain, op, block, k, i, at);
      StoreElsewhere(m, chain, i, at, 4 * n, p);
    } else {
      CarveNextKeepsLive(base, m, chain, op, block, k, i, p);
    }
  }

  lemma CarveNextKeepsLive(base: nat, m: seq<Word>, chain: seq<Block>, op: Call, block: Word, k: nat, i: nat, p: nat)
    requires Placed(base, |m|) && SectionOk(base, m, chain, chain, op, Carve(block, k, i)) && 3 < k && p in Live(chain)
    ensures Keeps(m, chain, Section(base, m, chain, op, Carve(block, k, i)), p)
  {
    var at, n := Pos(chain, i), op.words;
    OffsetOf(base, block, at);
    CarvedFully(base, m, chain, n, i);
    CarveNextEffect(base, m, chain, op, block, k, i, at);
    StoreElsewhere(m, chain, i, at + 2, base + 4 * (at + HEADER + n), p);
    CutLiveHere(chain, i, n);
  }

  lemma CutLiveHere(chain: seq<Block>, i: nat, n: nat)
    requires i < |chain| && chain[i].free && n <= chain[i].words && Splits(chain[i], n)
    ensures Live(CutAt(chain, i, n)) == Live(chain)
  {
    CutIsCut(chain, i, n);
    CutLive(chain, i, CutAt(chain, i, n));
  }

  lemma MarkUsedKeepsLive(base: nat, m: seq<Word>, chain: seq<Block>, start: seq<Block>, op: Call, block: Word, i: nat, p: nat)
    requires Placed(base, |m|) && SectionOk(base, m, chain, start, op, MarkUsed(block, i)) && p in Live(chain)
    ensures Keeps(m, chain, Section(base, m, chain, op, MarkUsed(block, i)), p)
  {
    SplitLayout(start, i, op.words);
    OffsetOf(base, block, Pos(chain, i));
    StoreElsewhere(m, chain, i, Pos(chain, i) + 1, 0, p);
    MarkUsedLive(chain, i);
  }

  lemma MarkFreeKeepsLive(base: nat, m: seq<Word>, chain: seq<Block>, op: Call, p: nat)
    requires SectionOk(base, m, chain, chain, op, MarkFree) && p in Live(chain) && op.payload != p
    ensures Keeps(m, chain, Section(base, m, chain, op, MarkFree), p)
  {
    var i := IndexOf(chain, op.payload);
    StoreElsewhere(m, chain, i, Pos(chain, i) + 1, 1, p);
    MarkFreeLive(chain, i);
  }

  lemma MergingKeepsLive(base: nat, m: seq<Word>, chain: seq<Block>, start: seq<Block>, op: Call, block: Word, i: nat, p: nat)
    requires Placed(base, |m|) && SectionOk(base, m, chain, start, op, Merging(block, i)) && p in Live(chain)
    ensures Keeps(m, chain, Section(base, m, chain, op, Merging(block, i)), p)
  {
    var at := Pos(chain, i);
    OffsetOf(base, block, at);
    MergingReads(base, m, chain, i);
    if Seam(chain, i) {
      var next := Pos(chain, i + 1);
      SeamEffect(base, m, chain, op, block, i, at, next);
      StoreElsewhere(m, chain, i, at, Joined(m[at], m[next]), p);
    } else {
      PassEffect(base, m, chain, op, block, i, at);
    }
  }

  lemma MergeNextKeepsLive(base: nat, m: seq<Word>, chain: seq<Block>, start: seq<Block>, op: Call, block: Word, i: nat, p: nat)
    requires SectionOk(base, m, chain, start, op, MergeNext(block, i)) && p in Live(chain)
    ensures Keeps(m, chain, Section(base, m, chain, op, MergeNext(block, i)), p)
  {
    var e := Section(base, m, chain, op, MergeNext(block, i));
    OffsetOf(base, block, Pos(chain, i));
    StoreElsewhere(m, chain, i, Pos(chain, i) + 2, Read(e.mem, Pos(chain, i) + 2), p);
    FuseIsCut(chain, i);
    CutLive(FuseAt(chain, i), i, chain);
  }

  /** A step inside the section keeps every live block's size, size word and
      contents, except that the block being freed stops being live. */
  lemma SectionKeepsLive(base: nat, m: seq<Word>, chain: seq<Block>, start: seq<Block>, op: Call, pc: Pc, p: nat)
    requires Placed(base, |m|) && SectionOk(base, m, chain, start, op, pc) && InSection(pc) && !pc.Unlock?
    requires p in Live(chain) && !(pc.MarkFree? && op.payload == p)
    ensures Keeps(m, chain, Section(base, m, chain, op, pc), p)
  {
    if pc.Carve? {
      CarveKeepsLive(base, m, chain, op, pc.block, pc.k, pc.i, p);
    } else if pc.MarkUsed? {
      MarkUsedKeepsLive(base, m, chain, start, op, pc.block, pc.i, p);
    } else if pc.MarkFree? {
      MarkFreeKeepsLive(base, m, chain, op, p);
    } else if pc.Merging? {
      MergingKeepsLive(base, m, chain, start, op, pc.block, pc.i, p);
    } else if pc.MergeNext? {
      MergeNextKeepsLive(base, m, chain, start, op, pc.block, pc.i, p);
    }
  }

  /** The size word of a live block tells its size in every reachable state, also
      while another CPU is in the middle of splitting or merging: krealloc may read
      it without the lock. */
  lemma SizeWordTrue(base: nat, s: State, p: nat)
    requires Inv(base, s) && p in Live(s.chain)
    ensures HEADER <= p && Read(s.mem, p - HEADER) == 4 * Live(s.chain)[p]
  {
    if s.lock {
      var pc := Top(s.cpus[s.holder]).pc;
      if pc.Carve? || pc.MergeNext? {
        SizeWordAround(base, s.mem, s.chain, pc.i, p);
      } else {
        SizeWordOf(base, s.mem, s.chain, p);
      }
    } else {
      SizeWordOf(base, s.mem, s.chain, p);
    }
  }

  lemma SizeWordOf(base: nat, m: seq<Word>, chain: seq<Block>, p: nat)
    requires Encodes(base, m, chain) && p in Live(chain)
    ensures HEADER <= p && Read(m, p - HEADER) == 4 * Live(chain)[p]
  {
    EncodesHeader(base, m, chain, IndexOf(chain, p));
  }

  /** Also while the size word of free block i holds something else. */
  lemma SizeWordAround(base: nat, m: seq<Word>, chain: seq<Block>, i: nat, p: nat)
    requires i < |chain| && chain[i].free && Pos(chain, i) < |m| && 4 * chain[i].words < 0x1_0000_0000
    requires Encodes(base, Store(m, Pos(chain, i), 4 * chain[i].words), chain) && p in Live(chain)
    ensures HEADER <= p && Read(m, p - HEADER) == 4 * Live(chain)[p]
  {
    SizeWordOf(base, Store(m, Pos(chain, i), 4 * chain[i].words), chain, p);
    LiveClearOf(chain, p, i);
  }

  /** The step gives payload p back. */
  predicate Frees(s: State, t: Step, p: nat)
    requires Enabled(s, t)
  {
    t.Advance? && Top(s.cpus[t.c]).pc.MarkFree? && Top(s.cpus[t.c]).op == Put(p)
  }

  predicate Writes(t: Step, p: nat) { t.Write? && t.payload == p }

  /** The header and words of a live block change only when its owner writes to
      them, and it stops being live only when it is freed. */
  lemma LiveStable(base: nat, s: State, t: Step, p: nat)
    requires Inv(base, s) && Enabled(s, t) && p in Live(s.chain) && !Writes(t, p) && !Frees(s, t, p)
    ensures var s' := Apply(base, s, t);
      && p in Live(s'.chain) && Live(s'.chain)[p] == Live(s.chain)[p]
      && SameIn(s.mem, s'.mem, p - HEADER, p + Live(s.chain)[p])
  {
    if t.Advance? && InSection(Top(s.cpus[t.c]).pc) && !Top(s.cpus[t.c]).pc.Unlock? {
      HolderKeepsLive(base, s, t.c, p);
    } else if t.Write? {
      WriteKeepsLive(s.mem, s.chain, t.payload, t.k, t.v, p);
    } else {
      QuietStep(base, s, t);
    }
  }

  /** Outside the section only client stores change the memory. */
  lemma QuietStep(base: nat, s: State, t: Step)
    requires Enabled(s, t) && !t.Write?
    requires t.Advance? ==> var pc := Top(s.cpus[t.c]).pc; !InSection(pc) || pc.Unlock?
    ensures Apply(base, s, t).mem == s.mem && Apply(base, s, t).chain == s.chain
  {
  }

  lemma WriteKeepsLive(m: seq<Word>, chain: seq<Block>, q: nat, k: nat, v: Word, p: nat)
    requires p in Live(chain) && q in Live(chain) && p != q && k < Live(chain)[q]
    ensures SameIn(m, Poke(m, q + k, v), p - HEADER, p + Live(chain)[p])
  {
    StoreElsewhere(m, chain, IndexOf(chain, q), q + k, v, p);
  }

  lemma HolderKeepsLive(base: nat, s: State, c: nat, p: nat)
    requires Inv(base, s) && Enabled(s, Advance(c)) && p in Live(s.chain) && !Frees(s, Advance(c), p)
    requires InSection(Top(s.cpus[c]).pc) && !Top(s.cpus[c]).pc.Unlock?
    ensures var s' := AdvanceCpu(base, s, c);
      && p in Live(s'.chain) && Live(s'.chain)[p] == Live(s.chain)[p]
      && SameIn(s.mem, s'.mem, p - HEADER, p + Live(s.chain)[p])
  {
    var ctx := Top(s.cpus[c]);
    assert Holding(s.cpus[c]);
    SectionKeepsLive(base, s.mem, s.chain, s.start, ctx.op, ctx.pc, p);
  }

  // ---- Live blocks over runs ----------------------------------------------

  /** Nobody frees payload p in this run. */
  predicate NotFreed(base: nat, s: State, ts: seq<Step>, p: nat)
    requires Possible(base, s, ts)
    decreases |ts|
  {
    ts == [] || (!Frees(s, ts[0], p) && NotFreed(base, Apply(base, s, ts[0]), ts[1..], p))
  }

  predicate NotWritten(ts: seq<Step>, p: nat) { forall i :: 0 <= i < |ts| ==> !Writes(ts[i], p) }

  /** Over any run in which nobody frees or writes a live block, it stays live, and
      its size word and contents stay, whatever the other CPUs do. */
  lemma {:induction false} LiveOverRuns(base: nat, s: State, ts: seq<Step>, p: nat)
    requires Inv(base, s) && Possible(base, s, ts) && p in Live(s.chain)
    requires NotFreed(base, s, ts, p) && NotWritten(ts, p)
    ensures var s' := StateAfter(base, s, ts);
      && p in Live(s'.chain) && Live(s'.chain)[p] == Live(s.chain)[p]
      && Read(s'.mem, p - HEADER) == 4 * Live(s.chain)[p]
      && SameIn(s.mem, s'.mem, p - HEADER, p + Live(s.chain)[p])
    decreases |ts|
  {
    if ts == [] {
      SizeWordTrue(base, s, p);
    } else {
      assert !Writes(ts[0], p);
      InvStep(base, s, ts[0]);
      LiveStable(base, s, ts[0], p);
      LiveOverRuns(base, Apply(base, s, ts[0]), ts[1..], p);
    }
  }

  /** Each store to the first n words of q stores the word that p then holds there. */
  predicate CopiesFrom(base: nat, s: State, ts: seq<Step>, p: nat, q: nat, n: nat)
    requires Possible(base, s, ts)
    decreases |ts|
  {
    ts == [] || (
      && (Writes(ts[0], q) && ts[0].k < n ==> ts[0].v == Read(s.mem, p + ts[0].k))
      && CopiesFrom(base, Apply(base, s, ts[0]), ts[1..], p, q, n))
  }

  predicate Stores(ts: seq<Step>, q: nat, k: nat)
  {
    exists i :: 0 <= i < |ts| && Writes(ts[i], q) && ts[i].k == k
  }

  /** The copy that krealloc makes without the lock: however its stores interleave
      with other CPUs, the new block ends up with the contents the old block had at
      the start, provided nobody else writes or frees the two. */
  lemma {:induction false} CopyUnderInterleaving(base: nat, s: State, ts: seq<Step>, p: nat, q: nat, n: nat, k: nat)
    requires Inv(base, s) && Possible(base, s, ts) && p in Live(s.chain) && q in Live(s.chain) && p != q
    requires k < n <= Live(s.chain)[p] && n <= Live(s.chain)[q]
    requires NotFreed(base, s, ts, p) && NotWritten(ts, p) && NotFreed(base, s, ts, q)
    requires CopiesFrom(base, s, ts, p, q, n) && (Stores(ts, q, k) || Read(s.mem, q + k) == Read(s.mem, p + k))
    ensures q in Live(StateAfter(base, s, ts).chain)
    ensures Read(StateAfter(base, s, ts).mem, q + k) == Read(s.mem, p + k)
    decreases |ts|
  {
    if ts != [] {
      var next := Apply(base, s, ts[0]);
      InvStep(base, s, ts[0]);
      assert !Writes(ts[0], p);
      LiveStable(base, s, ts[0], p);
      CopyStep(base, s, ts[0], p, q, n, k);
      StoresNext(ts, q, k);
      CopyUnderInterleaving(base, next, ts[1..], p, q, n, k);
    }
  }

  lemma StoresNext(ts: seq<Step>, q: nat, k: nat)
    requires ts != []
    ensures Stores(ts, q, k) ==> Stores(ts[1..], q, k) || (Writes(ts[0], q) && ts[0].k == k)
  {
    if Stores(ts, q, k) {
      var i :| 0 <= i < |ts| && Writes(ts[i], q) && ts[i].k == k;
      if i > 0 { assert ts[1..][i-1] == ts[i]; }
    }
  }

  lemma CopyStep(base: nat, s: State, t: Step, p: nat, q: nat, n: nat, k: nat)
    requires Inv(base, s) && Enabled(s, t) && q in Live(s.chain) && k < n <= Live(s.chain)[q]
    requires !Frees(s, t, q) && (Writes(t, q) && t.k < n ==> t.v == Read(s.mem, p + t.k))
    ensures var s' := Apply(base, s, t);
      && q in Live(s'.chain) && Live(s'.chain)[q] == Live(s.chain)[q]
      && Read(s'.mem, q + k) == if Writes(t, q) && t.k == k then Read(s.mem, p + k) else Read(s.mem, q + k)
  {
    if Writes(t, q) {
      ClientInside(base, s, q, k);
      ClientInside(base, s, q, t.k);
    } else {
      LiveStable(base, s, t, q);
    }
  }

  lemma ClientInside(base: nat, s: State, q: nat, k: nat)
    requires Inv(base, s) && q in Live(s.chain) && k < Live(s.chain)[q]
    ensures q + k < |s.mem|
  {
    LiveInside(s.chain, q);
  }

  // ---- A reallocation under interleaving ----------------------------------

  /** While CPU c holds the lock, p was live when it took it. */
  predicate LiveAtStart(s: State, c: nat, p: nat) { s.lock && s.holder == c ==> p in Live(s.start) }

  lemma {:induction false} LiveAtStartKept(base: nat, s: State, ts: seq<Step>, c: nat, p: nat)
    requires Inv(base, s) && Possible(base, s, ts) && p in Live(s.chain) && LiveAtStart(s, c, p)
    requires NotFreed(base, s, ts, p) && NotWritten(ts, p)
    ensures LiveAtStart(StateAfter(base, s, ts), c, p)
    decreases |ts|
  {
    if ts != [] {
      assert !Writes(ts[0], p);
      InvStep(base, s, ts[0]);
      LiveStable(base, s, ts[0], p);
      StartStep(base, s, ts[0]);
      LiveAtStartKept(base, Apply(base, s, ts[0]), ts[1..], c, p);
    }
  }

  lemma StartStep(base: nat, s: State, t: Step)
    requires Enabled(s, t)
    ensures var s' := Apply(base, s, t);
      s'.lock ==> (s.lock && s'.holder == s.holder && s'.start == s.start) || s'.start == s.chain
  {
  }

  /** What a finished allocation returns: NULL, or a block that was not live. */
  lemma AllocationResult(base: nat, s: State, c: nat, n: nat, r: Word)
    requires Inv(base, s) && About(s, c, n, r)
    ensures s.lock && s.holder == c && (r == NULL <==> FirstFit(s.start, n) == |s.start|)
    ensures r != NULL ==>
      var q := PayloadOf(s.start, FirstFit(s.start, n));
      r == base + 4 * q && q !in Live(s.start) && q in Live(s.chain) && n <= Live(s.chain)[q]
  {
    assert Holding(s.cpus[c]);
    if FirstFit(s.start, n) < |s.start| { AllocateLive(s.start, n); }
  }

  /** The call of kmalloc in krealloc, for n words: from when CPU c enters the
      allocator until it is about to leave it with result r. Nobody frees or writes p
      meanwhile. */
  predicate Allocating(base: nat, s: State, ts: seq<Step>, c: nat, p: nat, n: nat, r: Word)
  {
    && Possible(base, s, ts) && NotFreed(base, s, ts, p) && NotWritten(ts, p)
    && Running(s, c) && Top(s.cpus[c]).pc.Idle? && About(StateAfter(base, s, ts), c, n, r)
  }

  /** CPU c is about to release the lock after an allocation with result r. */
  predicate About(s: State, c: nat, n: nat, r: Word)
  {
    Running(s, c) && Top(s.cpus[c]).pc == Unlock(r) && Top(s.cpus[c]).op == Get(n)
  }

  /** The copy of n words from p to q: every word is stored, and nobody else frees or
      writes the two. */
  predicate Copying(base: nat, s: State, ts: seq<Step>, p: nat, q: nat, n: nat)
  {
    && Possible(base, s, ts) && NotFreed(base, s, ts, p) && NotWritten(ts, p) && NotFreed(base, s, ts, q)
    && CopiesFrom(base, s, ts, p, q, n) && forall k :: 0 <= k < n ==> Stores(ts, q, k)
  }

  /** kfree of p, up to and with the step that marks the block free. Nobody frees or
      writes q meanwhile. */
  predicate Freeing(base: nat, s: State, ts: seq<Step>, t: Step, p: nat, q: nat)
  {
    && Possible(base, s, ts) && NotFreed(base, s, ts, q) && NotWritten(ts, q)
    && Enabled(StateAfter(base, s, ts), t) && Frees(StateAfter(base, s, ts), t, p)
  }

  /** Word k behind q in m is word k behind p in m0. */
  predicate SameWord(m: seq<Word>, q: nat, m0: seq<Word>, p: nat, k: nat) { Read(m, q + k) == Read(m0, p + k) }

  predicate SameWords(m: seq<Word>, q: nat, m0: seq<Word>, p: nat, words: nat)
  {
    forall k :: 0 <= k < words ==> SameWord(m, q, m0, p, k)
  }

  lemma SameWordsKept(m: seq<Word>, m': seq<Word>, q: nat, m0: seq<Word>, p: nat, words: nat, from: int, to: int)
    requires SameWords(m, q, m0, p, words) && SameIn(m, m', from, to) && from <= q && q + words <= to
    ensures SameWords(m', q, m0, p, words)
  {
    forall k: nat | k < words ensures SameWord(m', q, m0, p, k) {
      assert SameWord(m, q, m0, p, k);
    }
  }

  /** Payload q is live with at least n words, the first of which are those that
      payload p held in memory m0. */
  predicate Holds(s: State, q: nat, n: nat, m0: seq<Word>, p: nat, words: nat)
  {
    q in Live(s.chain) && n <= Live(s.chain)[q] && SameWords(s.mem, q, m0, p, words)
  }

  /** That stays so while nobody frees or writes q. */
  lemma HoldsOver(base: nat, s: State, ts: seq<Step>, q: nat, n: nat, m0: seq<Word>, p: nat, words: nat)
    requires Inv(base, s) && Possible(base, s, ts) && Holds(s, q, n, m0, p, words) && words <= n
    requires NotFreed(base, s, ts, q) && NotWritten(ts, q)
    ensures Holds(StateAfter(base, s, ts), q, n, m0, p, words)
  {
    LiveOverRuns(base, s, ts, q);
    var s' := StateAfter(base, s, ts);
    SameWordsKept(s.mem, s'.mem, q, m0, p, words, q - HEADER, q + Live(s.chain)[q]);
  }

  /** Block q was allocated for n words, is not block p, and is live. */
  predicate NewBlock(s: State, p: nat, q: nat, n: nat)
  {
    && FirstFit(s.start, n) < |s.start| && q == PayloadOf(s.start, FirstFit(s.start, n))
    && q != p && q in Live(s.chain) && n <= Live(s.chain)[q]
  }

  /** The first part of a reallocation that has to move: the old block stays as it
      was, and the new one, if there is one, is another. */
  lemma ReallocAllocates(base: nat, s: State, a: seq<Step>, c: nat, p: nat, q: nat, n: nat, r: Word)
    requires Inv(base, s) && p in Live(s.chain) && Allocating(base, s, a, c, p, n, r)
    requires r != NULL ==> r == base + 4 * q
    ensures Read(s.mem, p - HEADER) == 4 * Live(s.chain)[p]
    ensures var s1, w := StateAfter(base, s, a), Live(s.chain)[p];
      && Inv(base, s1) && Holds(s1, p, w, s.mem, p, w) && Read(s1.mem, p - HEADER) == 4 * w
      && (r == NULL <==> FirstFit(s1.start, n) == |s1.start|)
      && (r != NULL ==> NewBlock(s1, p, q, n))
  {
    SizeWordTrue(base, s, p);
    InvAlways(base, s, a);
    assert !Holding(s.cpus[c]);
    LiveOverRuns(base, s, a, p);
    HoldsOver(base, s, a, p, Live(s.chain)[p], s.mem, p, Live(s.chain)[p]);
    LiveAtStartKept(base, s, a, c, p);
    AllocationResult(base, StateAfter(base, s, a), c, n, r);
  }

  lemma ReallocCopies(base: nat, s1: State, b: seq<Step>, m0: seq<Word>, p: nat, q: nat, w: nat, n: nat)
    requires Inv(base, s1) && Holds(s1, p, w, m0, p, w) && q in Live(s1.chain) && p != q && w <= n <= Live(s1.chain)[q]
    requires Copying(base, s1, b, p, q, w)
    ensures Holds(StateAfter(base, s1, b), q, n, m0, p, w)
  {
    var s2 := StateAfter(base, s1, b);
    SizeKept(base, s1, b, q);
    forall k: nat | k < w ensures SameWord(s2.mem, q, m0, p, k) {
      assert SameWord(s1.mem, p, m0, p, k);
      CopyUnderInterleaving(base, s1, b, p, q, w, k);
    }
  }

  /** A block that nobody frees keeps its size, whoever writes to it. */
  lemma {:induction false} SizeKept(base: nat, s: State, ts: seq<Step>, q: nat)
    requires Inv(base, s) && Possible(base, s, ts) && q in Live(s.chain) && NotFreed(base, s, ts, q)
    ensures var s' := StateAfter(base, s, ts); q in Live(s'.chain) && Live(s'.chain)[q] == Live(s.chain)[q]
    decreases |ts|
  {
    if ts != [] {
      InvStep(base, s, ts[0]);
      if !Writes(ts[0], q) { LiveStable(base, s, ts[0], q); }
      SizeKept(base, Apply(base, s, ts[0]), ts[1..], q);
    }
  }

  /** The step that frees p leaves other blocks alone. */
  lemma FreeingStep(base: nat, s: State, t: Step, p: nat, q: nat, n: nat, m0: seq<Word>, words: nat)
    requires Inv(base, s) && Enabled(s, t) && Frees(s, t, p) && p != q && Holds(s, q, n, m0, p, words) && words <= n
    ensures var s' := Apply(base, s, t); Holds(s', q, n, m0, p, words) && p !in Live(s'.chain)
  {
    var s' := Apply(base, s, t);
    LiveStable(base, s, t, q);
    SameWordsKept(s.mem, s'.mem, q, m0, p, words, q - HEADER, q + Live(s.chain)[q]);
    assert Holding(s.cpus[t.c]);
    MarkFreeLive(s.chain, IndexOf(s.chain, p));
  }

  lemma ReallocFrees(base: nat, s2: State, d: seq<Step>, t: Step, m0: seq<Word>, p: nat, q: nat, w: nat, n: nat)
    requires Inv(base, s2) && Holds(s2, q, n, m0, p, w) && w <= n && p != q && Freeing(base, s2, d, t, p, q)
    ensures var s3 := Apply(base, StateAfter(base, s2, d), t); Holds(s3, q, n, m0, p, w) && p !in Live(s3.chain)
  {
    InvAlways(base, s2, d);
    HoldsOver(base, s2, d, q, n, m0, p, w);
    FreeingStep(base, StateAfter(base, s2, d), t, p, q, n, m0, w);
  }

  /** The copy and the release, from state s1 on. */
  predicate Moving(base: nat, s1: State, b: seq<Step>, d: seq<Step>, t: Step, p: nat, q: nat, w: nat)
  {
    Copying(base, s1, b, p, q, w) && Freeing(base, StateAfter(base, s1, b), d, t, p, q)
  }

  /** In the end q holds the w words that p held in memory m0 and has room for n, and
      p is live no more. */
  predicate MovedAway(base: nat, s1: State, b: seq<Step>, d: seq<Step>, t: Step, m0: seq<Word>, p: nat, q: nat, w: nat, n: nat)
    requires Moving(base, s1, b, d, t, p, q, w)
  {
    var s3 := Apply(base, StateAfter(base, StateAfter(base, s1, b), d), t);
    Holds(s3, q, n, m0, p, w) && p !in Live(s3.chain)
  }

  lemma ReallocMoves(base: nat, s1: State, b: seq<Step>, d: seq<Step>, t: Step, m0: seq<Word>, p: nat, q: nat, w: nat, n: nat)
    requires Inv(base, s1) && Holds(s1, p, w, m0, p, w) && NewBlock(s1, p, q, n) && w <= n
    requires Moving(base, s1, b, d, t, p, q, w)
    ensures MovedAway(base, s1, b, d, t, m0, p, q, w, n)
  {
    ReallocCopies(base, s1, b, m0, p, q, w, n);
    InvAlways(base, s1, b);
    ReallocFrees(base, StateAfter(base, s1, b), d, t, m0, p, q, w, n);
  }

  /** A reallocation that has to move, its three parts interleaved with any steps of
      any other CPUs: either kmalloc returns NULL, because no block fitted when it held
      the lock, and the old block is live with its old contents; or it returns another
      block with room for the request, which in the end begins with the contents that
      the old block had when the call began, and the old block is live no more. */
  lemma ReallocUnderInterleaving(base: nat, s: State, a: seq<Step>, b: seq<Step>, d: seq<Step>, t: Step,
                                 c: nat, p: nat, q: nat, n: nat, r: Word)
    requires Inv(base, s) && p in Live(s.chain) && Live(s.chain)[p] <= n && Allocating(base, s, a, c, p, n, r)
    requires r != NULL ==> r == base + 4 * q && Moving(base, StateAfter(base, s, a), b, d, t, p, q, Live(s.chain)[p])
    ensures var s1, w := StateAfter(base, s, a), Live(s.chain)[p];
      if r == NULL then FirstFit(s1.start, n) == |s1.start| && Holds(s1, p, w, s.mem, p, w)
      else MovedAway(base, s1, b, d, t, s.mem, p, q, w, n)
  {
    ReallocAllocates(base, s, a, c, p, q, n, r);
    if r != NULL {
      ReallocMoves(base, StateAfter(base, s, a), b, d, t, s.mem, p, q, Live(s.chain)[p], n);
    }
  }

  // ---- Progress -----------------------------------------------------------

  /** Steps a section still needs. */
  function Remaining(chain: seq<Block>, pc: Pc): int
  {
    match pc
    case Find(_, i) => 8 + |chain| - i
    case Test(_, _) => 7
    case Carve(_, k, _) => 6 - k
    case MarkUsed(_, _) => 1
    case MarkFree => 2 * |chain| + 1
    case Merging(_, i) => 2 * (|chain| - i)
    case MergeNext(_, i) => 2 * (|chain| - i) - 1
    case _ => 0
  }

  /** The CPU inside the section is never blocked, it can do nothing but go on, and
      each of its steps brings the release of the lock nearer. */
  lemma HolderProgress(base: nat, s: State)
    requires Inv(base, s) && s.lock
    ensures Enabled(s, Advance(s.holder))
    ensures forall t: Step :: Enabled(s, t) && t.c == s.holder ==> t == Advance(s.holder)
    ensures var pc := Top(s.cpus[s.holder]).pc; var s' := Apply(base, s, Advance(s.holder));
      if pc.Unlock? then !s'.lock
      else s'.lock && s'.holder == s.holder && 0 <= Remaining(s'.chain, Top(s'.cpus[s.holder]).pc) < Remaining(s.chain, pc)
  {
    var ctx := Top(s.cpus[s.holder]);
    if !ctx.pc.Unlock? {
      SectionShrinks(base, s.mem, s.chain, s.start, ctx.op, ctx.pc);
    }
  }

  /** No step of another CPU takes the lock from it, touches its context, or changes
      the chain. */
  lemma OthersKeepHolder(base: nat, s: State, t: Step)
    requires Inv(base, s) && s.lock && Enabled(s, t) && t.c != s.holder
    ensures var s' := Apply(base, s, t);
      && s'.lock && s'.holder == s.holder && s'.cpus[s.holder] == s.cpus[s.holder] && s'.chain == s.chain
  {
    NotHolding(base, s, t.c);
    OtherCpuKept(base, s, t, s.holder);
    OthersQuiet(base, s, t);
  }

  lemma OthersQuiet(base: nat, s: State, t: Step)
    requires Enabled(s, t) && s.lock && !InSection(Top(s.cpus[t.c]).pc)
    ensures var s' := Apply(base, s, t); s'.lock && s'.holder == s.holder && s'.chain == s.chain
  {
  }

  /** The lock is free at some point of the run. */
  predicate Released(base: nat, s: State, ts: seq<Step>)
    requires Possible(base, s, ts)
    decreases |ts|
  {
    !s.lock || (ts != [] && Released(base, Apply(base, s, ts[0]), ts[1..]))
  }

  /** Steps of CPU c in the run. */
  function StepsOf(ts: seq<Step>, c: nat): nat
  {
    if ts == [] then 0 else (if ts[0].c == c then 1 else 0) + StepsOf(ts[1..], c)
  }

  lemma RemainingBound(base: nat, s: State)
    requires Inv(base, s) && s.lock
    ensures 0 <= Remaining(s.chain, Top(s.cpus[s.holder]).pc) <= 8 + 2 * |s.chain| <= 8 + 2 * |s.mem| / HEADER
  {
    ChainBound(s.chain, |s.chain|);
  }

  lemma {:induction false} ChainBound(bs: seq<Block>, n: nat)
    requires n <= |bs|
    ensures HEADER * n <= Pos(bs, n)
  {
    if n > 0 { ChainBound(bs, n - 1); }
  }

  lemma {:induction false} ReleasedInTime(base: nat, s: State, ts: seq<Step>)
    requires Inv(base, s) && s.lock && Possible(base, s, ts)
    requires Remaining(s.chain, Top(s.cpus[s.holder]).pc) < StepsOf(ts, s.holder)
    ensures Released(base, s, ts)
    decreases |ts|
  {
    RemainingBound(base, s);
    var next := Apply(base, s, ts[0]);
    InvStep(base, s, ts[0]);
    if ts[0].c == s.holder {
      HolderProgress(base, s);
      if next.lock { ReleasedInTime(base, next, ts[1..]); }
    } else {
      OthersKeepHolder(base, s, ts[0]);
      ReleasedInTime(base, next, ts[1..]);
    }
  }

  /** Nobody waits for more than a fixed number of the holder's steps, however many
      steps the others take in between: a run in which it takes more frees the lock. */
  lemma WaitBounded(base: nat, s: State, ts: seq<Step>)
    requires Inv(base, s) && s.lock && Possible(base, s, ts)
    requires 8 + 2 * |s.mem| / HEADER < StepsOf(ts, s.holder)
    ensures Released(base, s, ts)
  {
    RemainingBound(base, s);
    ReleasedInTime(base, s, ts);
  }

  // ---- Calls complete -----------------------------------------------------

  /** A CPU that tries the lock while it is free is inside the section next, with
      the heap as it was, at the start of the call it is in. */
  lemma SpinTakes(base: nat, s: State, c: nat)
    requires Inv(base, s) && !s.lock && Enabled(s, Advance(c)) && Top(s.cpus[c]).pc.Spin?
    ensures var s' := Apply(base, s, Advance(c)); var ctx := Top(s'.cpus[c]);
      && s'.lock && s'.holder == c && s'.start == s.chain && s'.mem == s.mem
      && InSection(ctx.pc) && !ctx.pc.Unlock? && ctx.op == Top(s.cpus[c]).op
      && (ctx.pc.MarkFree? <==> ctx.op.Put?)
  {
  }

  /** Context j of CPU c, counted from the bottom of its stack, is inside a call. */
  predicate InCall(s: State, c: nat, j: nat)
  {
    c < |s.cpus| && j < |s.cpus[c].stack| && !s.cpus[c].stack[j].pc.Idle?
  }

  /** The step is one of this context, and not a try of a lock that is taken. */
  predicate Effective(s: State, t: Step, c: nat, j: nat)
    requires InCall(s, c, j)
  {
    t == Advance(c) && |s.cpus[c].stack| == j + 1 && !(Top(s.cpus[c]).pc.Spin? && s.lock)
  }

  /** Steps the context still needs until its call is over. */
  function Work(s: State, c: nat, j: nat): int
    requires InCall(s, c, j)
  {
    var pc := s.cpus[c].stack[j].pc;
    var section := 8 + 2 * |s.mem| / HEADER;
    match pc
    case Save => section + 5
    case Disable => section + 4
    case Spin => section + 3
    case Restore(_) => 1
    case _ => Remaining(s.chain, pc) + 2
  }

  /** Only a context on top of its stack is inside the section, and then it has the
      lock. */
  lemma SectionOnTop(base: nat, s: State, c: nat, j: nat)
    requires Inv(base, s) && InCall(s, c, j) && InSection(s.cpus[c].stack[j].pc)
    ensures |s.cpus[c].stack| == j + 1 && s.lock && s.holder == c
  {
    assert CpuOk(s.cpus[c]);
    assert j < |s.cpus[c].stack| - 1 ==> SuspendedOk(s.cpus[c].stack[j]);
    assert Holding(s.cpus[c]);
  }

  /** A step that is not effective leaves the context alone. */
  lemma ContextKept(base: nat, s: State, t: Step, c: nat, j: nat)
    requires Inv(base, s) && Enabled(s, t) && InCall(s, c, j) && !Effective(s, t, c, j)
    ensures var s' := Apply(base, s, t);
      InCall(s', c, j) && s'.cpus[c].stack[j] == s.cpus[c].stack[j] && |s'.mem| == |s.mem|
  {
    MemoryKept(base, s, t);
    if t.c != c {
      OtherCpuKept(base, s, t, c);
    } else if t.Advance? {
      if |s.cpus[c].stack| > j + 1 { LowerKept(base, s, c, j); }
    } else {
      OutsideKept(base, s, t, j);
    }
  }

  lemma OtherCpuKept(base: nat, s: State, t: Step, c: nat)
    requires Enabled(s, t) && t.c != c && c < |s.cpus|
    ensures var s' := Apply(base, s, t); c < |s'.cpus| && s'.cpus[c] == s.cpus[c]
  {
  }

  lemma LowerKept(base: nat, s: State, c: nat, j: nat)
    requires Enabled(s, Advance(c)) && j + 1 < |s.cpus[c].stack|
    ensures var s' := Apply(base, s, Advance(c));
      c < |s'.cpus| && j < |s'.cpus[c].stack| && s'.cpus[c].stack[j] == s.cpus[c].stack[j]
  {
  }

  lemma OutsideKept(base: nat, s: State, t: Step, j: nat)
    requires Enabled(s, t) && !t.Advance? && InCall(s, t.c, j)
    ensures var s' := Apply(base, s, t);
      t.c < |s'.cpus| && j < |s'.cpus[t.c].stack| && s'.cpus[t.c].stack[j] == s.cpus[t.c].stack[j]
  {
  }

  lemma MemoryKept(base: nat, s: State, t: Step)
    requires Inv(base, s) && Enabled(s, t)
    ensures |Apply(base, s, t).mem| == |s.mem|
  {
    if t.Advance? && InSection(Top(s.cpus[t.c]).pc) && !Top(s.cpus[t.c]).pc.Unlock? {
      SectionStaysInside(base, s.mem, s.chain, Top(s.cpus[t.c]).op, Top(s.cpus[t.c]).pc);
    }
  }

  lemma WorkKept(base: nat, s: State, t: Step, c: nat, j: nat)
    requires Inv(base, s) && Enabled(s, t) && InCall(s, c, j) && !Effective(s, t, c, j)
    ensures InCall(Apply(base, s, t), c, j) && Work(Apply(base, s, t), c, j) == Work(s, c, j)
    ensures Apply(base, s, t).cpus[c].stack[j] == s.cpus[c].stack[j]
  {
    ContextKept(base, s, t, c, j);
    if InSection(s.cpus[c].stack[j].pc) {
      SectionOnTop(base, s, c, j);
      HolderProgress(base, s);
      OthersKeepHolder(base, s, t);
    }
  }

  /** What an effective step does to the context: it stays in the same call and needs
      fewer steps, or returns. */
  predicate Shrunk(s: State, s': State, c: nat, j: nat)
    requires InCall(s, c, j)
  {
    && c < |s'.cpus| && j < |s'.cpus[c].stack| && s'.cpus[c].stack[j].op == s.cpus[c].stack[j].op
    && (s'.cpus[c].stack[j].pc.Restore? <==> s.cpus[c].stack[j].pc.Unlock?)
    && if s.cpus[c].stack[j].pc.Restore? then s'.cpus[c].stack[j].pc.Idle?
       else InCall(s', c, j) && Work(s', c, j) < Work(s, c, j)
  }

  lemma ProtocolShrinks(base: nat, s: State, c: nat, j: nat)
    requires Inv(base, s) && InCall(s, c, j) && |s.cpus[c].stack| == j + 1
    requires Top(s.cpus[c]).pc.Save? || Top(s.cpus[c]).pc.Disable? || Top(s.cpus[c]).pc.Restore?
    ensures Shrunk(s, AdvanceCpu(base, s, c), c, j)
  {
  }

  lemma SpinShrinks(base: nat, s: State, c: nat, j: nat)
    requires Inv(base, s) && Enabled(s, Advance(c)) && InCall(s, c, j) && |s.cpus[c].stack| == j + 1
    requires Top(s.cpus[c]).pc.Spin? && !s.lock
    ensures Shrunk(s, AdvanceCpu(base, s, c), c, j)
  {
    SpinTakes(base, s, c);
    AdvanceStep(base, s, c);
    RemainingBound(base, AdvanceCpu(base, s, c));
  }

  lemma SectionWorkShrinks(base: nat, s: State, c: nat, j: nat)
    requires Inv(base, s) && InCall(s, c, j) && |s.cpus[c].stack| == j + 1 && InSection(Top(s.cpus[c]).pc)
    ensures Shrunk(s, AdvanceCpu(base, s, c), c, j)
  {
    SectionOnTop(base, s, c, j);
    SectionAdvances(base, s, c);
    TopAdvances(base, s, c, j);
  }

  lemma TopAdvances(base: nat, s: State, c: nat, j: nat)
    requires c < |s.cpus| && |s.cpus[c].stack| == j + 1 && Enabled(s, Advance(c)) && InSection(Top(s.cpus[c]).pc)
    ensures var s' := AdvanceCpu(base, s, c);
      c < |s'.cpus| && |s'.cpus[c].stack| == j + 1 && Top(s'.cpus[c]).op == Top(s.cpus[c]).op
  {
  }

  lemma WorkShrinks(base: nat, s: State, c: nat, j: nat)
    requires Inv(base, s) && Enabled(s, Advance(c)) && InCall(s, c, j) && Effective(s, Advance(c), c, j)
    ensures Shrunk(s, Apply(base, s, Advance(c)), c, j)
  {
    var pc := Top(s.cpus[c]).pc;
    if pc.Spin? {
      SpinShrinks(base, s, c, j);
    } else if InSection(pc) {
      SectionWorkShrinks(base, s, c, j);
    } else {
      ProtocolShrinks(base, s, c, j);
    }
  }

  lemma SectionAdvances(base: nat, s: State, c: nat)
    requires Inv(base, s) && s.lock && s.holder == c && InSection(Top(s.cpus[c]).pc)
    ensures var pc, s' := Top(s.cpus[c]).pc, Apply(base, s, Advance(c)); var pc' := Top(s'.cpus[c]).pc;
      if pc.Unlock? then pc' == Restore(pc.result)
      else InSection(pc') && 0 <= Remaining(s'.chain, pc') < Remaining(s.chain, pc)
  {
    HolderProgress(base, s);
    var ctx := Top(s.cpus[c]);
    if !ctx.pc.Unlock? { SectionStaysInside(base, s.mem, s.chain, ctx.op, ctx.pc); }
  }

  /** The effective steps of the context in a run, until its call is over. */
  function EffectiveSteps(base: nat, s: State, ts: seq<Step>, c: nat, j: nat): nat
    requires Possible(base, s, ts)
    decreases |ts|
  {
    if ts == [] || !InCall(s, c, j) then 0
    else (if Effective(s, ts[0], c, j) then 1 else 0) + EffectiveSteps(base, Apply(base, s, ts[0]), ts[1..], c, j)
  }

  /** Its call is over at some point of the run. */
  predicate Returned(base: nat, s: State, ts: seq<Step>, c: nat, j: nat)
    requires Possible(base, s, ts)
    decreases |ts|
  {
    !InCall(s, c, j) || (ts != [] && Returned(base, Apply(base, s, ts[0]), ts[1..], c, j))
  }

  /** The calls whose section the context ends in this time. */
  function Executed(base: nat, s: State, ts: seq<Step>, c: nat, j: nat): seq<Call>
    requires Possible(base, s, ts)
    decreases |ts|
  {
    if ts == [] || !InCall(s, c, j) then []
    else
      (if Effective(s, ts[0], c, j) then Finishing(s, ts[0]) else []) +
      Executed(base, Apply(base, s, ts[0]), ts[1..], c, j)
  }

  /** After as many of its steps as it needs, the context has returned, and it has
      executed its call once and no other. */
  lemma {:induction false} ContextReturns(base: nat, s: State, ts: seq<Step>, c: nat, j: nat)
    requires Inv(base, s) && Possible(base, s, ts) && InCall(s, c, j)
    requires Work(s, c, j) <= EffectiveSteps(base, s, ts, c, j)
    ensures Returned(base, s, ts, c, j)
    ensures Executed(base, s, ts, c, j) == if s.cpus[c].stack[j].pc.Restore? then [] else [s.cpus[c].stack[j].op]
    decreases |ts|
  {
    WorkPositive(base, s, c, j);
    var next := Apply(base, s, ts[0]);
    InvStep(base, s, ts[0]);
    if Effective(s, ts[0], c, j) {
      WorkShrinks(base, s, c, j);
      EffectiveFinishes(s, c, j);
      if !s.cpus[c].stack[j].pc.Restore? { ContextReturns(base, next, ts[1..], c, j); }
    } else {
      WorkKept(base, s, ts[0], c, j);
      ContextReturns(base, next, ts[1..], c, j);
    }
  }

  lemma EffectiveFinishes(s: State, c: nat, j: nat)
    requires InCall(s, c, j) && Enabled(s, Advance(c)) && Effective(s, Advance(c), c, j)
    ensures Finishing(s, Advance(c)) == if s.cpus[c].stack[j].pc.Unlock? then [s.cpus[c].stack[j].op] else []
  {
  }

  lemma WorkPositive(base: nat, s: State, c: nat, j: nat)
    requires Inv(base, s) && InCall(s, c, j)
    ensures 1 <= Work(s, c, j)
  {
    if InSection(s.cpus[c].stack[j].pc) {
      SectionOnTop(base, s, c, j);
      RemainingBound(base, s);
    }
  }

  /** A call that CPU c enters is over after a fixed number of steps of its own, given
      by the size of the heap, not counting the tries of a lock that is taken; whatever
      interrupts and other CPUs do in between. It executes the operation it was entered
      with, once, and nothing else. */
  lemma CallCompletes(base: nat, s: State, c: nat, op: Call, ts: seq<Step>)
    requires Inv(base, s) && Enabled(s, Enter(c, op)) && Possible(base, Apply(base, s, Enter(c, op)), ts)
    requires 13 + 2 * |s.mem| / HEADER <=
      EffectiveSteps(base, Apply(base, s, Enter(c, op)), ts, c, |s.cpus[c].stack| - 1)
    ensures var s', j := Apply(base, s, Enter(c, op)), |s.cpus[c].stack| - 1;
      Returned(base, s', ts, c, j) && Executed(base, s', ts, c, j) == [op]
  {
    InvStep(base, s, Enter(c, op));
    ContextReturns(base, Apply(base, s, Enter(c, op)), ts, c, |s.cpus[c].stack| - 1);
  }

  lemma SectionShrinks(base: nat, m: seq<Word>, chain: seq<Block>, start: seq<Block>, op: Call, pc: Pc)
    requires Placed(base, |m|) && SectionOk(base, m, chain, start, op, pc) && InSection(pc) && !pc.Unlock?
    ensures var e := Section(base, m, chain, op, pc); 0 <= Remaining(e.chain, e.pc) < Remaining(chain, pc)
  {
    if pc.Find? {
      FindShrinks(base, m, chain, start, op, pc);
    } else if pc.Merging? {
      MergingShrinks(base, m, chain, start, op, pc);
    } else if pc.MergeNext? {
      MergeNextShrinks(base, m, chain, start, op, pc);
    } else {
      SingleShrinks(base, m, chain, op, pc);
    }
  }

  lemma MergeNextShrinks(base: nat, m: seq<Word>, chain: seq<Block>, start: seq<Block>, op: Call, pc: Pc)
    requires Placed(base, |m|) && SectionOk(base, m, chain, start, op, pc) && pc.MergeNext?
    ensures var e := Section(base, m, chain, op, pc); 0 <= Remaining(e.chain, e.pc) < Remaining(chain, pc)
  {
    FuseIsCut(chain, pc.i);
  }

  lemma SingleShrinks(base: nat, m: seq<Word>, chain: seq<Block>, op: Call, pc: Pc)
    requires pc.Test? || (pc.Carve? && pc.k <= 4) || pc.MarkUsed? || pc.MarkFree?
    ensures var e := Section(base, m, chain, op, pc); 0 <= Remaining(e.chain, e.pc) < Remaining(chain, pc)
  {
  }

  lemma FindShrinks(base: nat, m: seq<Word>, chain: seq<Block>, start: seq<Block>, op: Call, pc: Pc)
    requires Placed(base, |m|) && SectionOk(base, m, chain, start, op, pc) && pc.Find?
    ensures var e := Section(base, m, chain, op, pc); 0 <= Remaining(e.chain, e.pc) < Remaining(chain, pc)
  {
    if pc.i < |chain| { FindStep(base, m, chain, op, pc.block, pc.i); }
  }

  lemma MergingShrinks(base: nat, m: seq<Word>, chain: seq<Block>, start: seq<Block>, op: Call, pc: Pc)
    requires Placed(base, |m|) && SectionOk(base, m, chain, start, op, pc) && pc.Merging?
    ensures var e := Section(base, m, chain, op, pc); 0 <= Remaining(e.chain, e.pc) < Remaining(chain, pc)
  {
    MergingStep(base, m, chain, start, op, pc.block, pc.i);
  }
}
