/** What one run over the whole symbol table emits. */
module WholeRun {
  import opened Wrappers
  import opened OrderedSet
  import opened BasicBlocks
  import opened Symbols
  import opened Disassembler
  import opened FunctionBlocks
  import opened FunctionRanges
  import opened Runs

  // ----- the run -----

  function BaseOf(table: seq<Record>, n: nat): Address
    requires n < |table|
  {
    AddressOfRecord(table[n])
  }

  function MaxOffset(table: seq<Record>, n: nat): int
    requires n < |table|
  {
    ToInt(SizeAt(table, n))
  }

  function ReaderOf(table: seq<Record>, n: nat, decode: RawSection -> Decoder): Reader
    requires n < |table|
  {
    ReaderAt(decode(table[n].parent.origin), BaseOf(table, n))
  }

  /** The instructions of one symbol. */
  function SweptAt(table: seq<Record>, n: nat, decode: RawSection -> Decoder): seq<Swept>
    requires n < |table|
  {
    Sweep(ReaderOf(table, n, decode), 0, MaxOffset(table, n))
  }

  function OffsetsAt(table: seq<Record>, n: nat, decode: RawSection -> Decoder): seq<nat>
    requires n < |table|
  {
    Offsets(ReaderOf(table, n, decode), 0, MaxOffset(table, n))
  }

  /** The instructions of a symbol follow each other without gaps from its address, below its end. */
  lemma SweptLaidOut(table: seq<Record>, n: nat, decode: RawSection -> Decoder)
    requires n < |table|
    ensures LaidOut(SweptAt(table, n, decode), OffsetsAt(table, n, decode), BaseOf(table, n), 0, MaxOffset(table, n))
    ensures MaxOffset(table, n) <= SizeAt(table, n)
  {
    SweepTiles(decode(table[n].parent.origin), BaseOf(table, n), 0, MaxOffset(table, n));
    ToIntAtMost(SizeAt(table, n));
  }

  /** What the instructions of a function add to the blocks so far. */
  function AddSweep(swept: seq<Swept>, base: Address, owner: RawSymbol, blocks: seq<BasicBlock>): Outcome {
    var starts, leaders := Starts(swept), Leaders(base, swept);
    if NoBlock(starts, leaders, blocks) then Outcome(blocks, [], false)
    else Outcome(blocks + OpenedBlocks(leaders, owner, Pointer(starts, leaders, |starts|)),
                 Emitted(swept, leaders, owner, blocks, |swept|), true)
  }

  /** What symbol `n` adds to a run; a symbol that is no function adds nothing. */
  function StepAt(table: seq<Record>, n: nat, decode: RawSection -> Decoder, blocks: seq<BasicBlock>): Outcome
    requires n < |table|
  {
    if IsFunction(table[n]) then AddSweep(SweptAt(table, n, decode), BaseOf(table, n), table[n].origin, blocks)
    else Outcome(blocks, [], true)
  }

  function StepsOf(table: seq<Record>, decode: RawSection -> Decoder): Stepper {
    (n: nat, blocks: seq<BasicBlock>) =>
      if n < |table| then StepAt(table, n, decode, blocks) else Outcome(blocks, [], true)
  }

  /** The run over the whole table. */
  function RunAll(table: seq<Record>, decode: RawSection -> Decoder, blocks: seq<BasicBlock>): Outcome {
    RunSteps(StepsOf(table, decode), 0, |table|, blocks)
  }

  /** A function whose sweep finds an instruction. */
  predicate Sweeps(table: seq<Record>, n: nat, decode: RawSection -> Decoder)
    requires n < |table|
  {
    IsFunction(table[n]) && SweptAt(table, n, decode) != []
  }

  // ----- a run fails at its first function or not at all -----

  lemma AddSweepFails(swept: seq<Swept>, base: Address, owner: RawSymbol, blocks: seq<BasicBlock>)
    requires swept != [] ==> swept[0].address == base
    ensures StepFails(AddSweep(swept, base, owner, blocks), blocks, swept != [], JumpsBefore(swept, base))
  {
    var starts, leaders := Starts(swept), Leaders(base, swept);
    FirstLeader(swept, base);
    if swept != [] {
      PointerMonotone(starts, leaders, 1, |starts|);
    }
  }

  function SweepsOf(table: seq<Record>, decode: RawSection -> Decoder): nat -> bool {
    (n: nat) => n < |table| && Sweeps(table, n, decode)
  }

  ghost function JumpsBeforeOf(table: seq<Record>, decode: RawSection -> Decoder): nat -> bool {
    (n: nat) => n < |table| && JumpsBefore(SweptAt(table, n, decode), BaseOf(table, n))
  }

  lemma StepsOfFail(table: seq<Record>, decode: RawSection -> Decoder)
    ensures StepsFail(StepsOf(table, decode), SweepsOf(table, decode), JumpsBeforeOf(table, decode))
  {
    var step, sweeps, fails := StepsOf(table, decode), SweepsOf(table, decode), JumpsBeforeOf(table, decode);
    forall n: nat, blocks: seq<BasicBlock>
      ensures StepFails(step(n, blocks), blocks, sweeps(n), fails(n))
    {
      if n < |table| && IsFunction(table[n]) {
        SweptStart(table, n, decode);
        AddSweepFails(SweptAt(table, n, decode), BaseOf(table, n), table[n].origin, blocks);
      }
    }
  }

  lemma SweptStart(table: seq<Record>, n: nat, decode: RawSection -> Decoder)
    requires n < |table|
    ensures var swept := SweptAt(table, n, decode); swept != [] ==> swept[0].address == BaseOf(table, n)
  {
    SweptLaidOut(table, n, decode);
    if SweptAt(table, n, decode) != [] {
      assert StandsAt(SweptAt(table, n, decode)[0], BaseOf(table, n) + OffsetsAt(table, n, decode)[0]);
    }
  }

  /** The first function with an instruction, and one of its jumps leads to a place before it. */
  ghost predicate FirstJumpsBefore(table: seq<Record>, f: nat, decode: RawSection -> Decoder)
    requires f < |table|
  {
    && Sweeps(table, f, decode) && JumpsBefore(SweptAt(table, f, decode), BaseOf(table, f))
    && forall k :: 0 <= k < f ==> !Sweeps(table, k, decode)
  }

  lemma FirstJumpsBeforeAt(table: seq<Record>, f: nat, decode: RawSection -> Decoder)
    requires f < |table|
    ensures FirstJumpsBefore(table, f, decode) <==>
      FirstFails(f, SweepsOf(table, decode), JumpsBeforeOf(table, decode), 0, |table|)
  {
    var sweeps := SweepsOf(table, decode);
    forall k: nat | k < f ensures sweeps(k) <==> Sweeps(table, k, decode) {
    }
  }

  /**
   A run fails exactly when no block came before and the first function that has an instruction jumps to a
   place before its own address; it has emitted nothing then.
   */
  lemma {:induction false} RunFailsExactly(table: seq<Record>, decode: RawSection -> Decoder, blocks: seq<BasicBlock>)
    ensures var run := RunAll(table, decode, blocks);
      && (!run.ok <==> blocks == [] && exists f :: 0 <= f < |table| && FirstJumpsBefore(table, f, decode))
      && (!run.ok ==> run == Outcome([], [], false))
  {
    var sweeps, fails := SweepsOf(table, decode), JumpsBeforeOf(table, decode);
    StepsOfFail(table, decode);
    RunFails(StepsOf(table, decode), sweeps, fails, 0, |table|, blocks);
    forall f: nat | f < |table|
      ensures FirstJumpsBefore(table, f, decode) <==> FirstFails(f, sweeps, fails, 0, |table|)
    {
      FirstJumpsBeforeAt(table, f, decode);
    }
  }

  // ----- runs in which no sweep wraps or overruns another: order and parents -----

  function LastOf(base: Address, offsets: seq<nat>): nat {
    base + if offsets == [] then 0 else offsets[|offsets| - 1]
  }

  /** Where the last instruction of a symbol stands, counted on beyond the top of the address space. */
  function LastPlace(table: seq<Record>, n: nat, decode: RawSection -> Decoder): nat
    requires n < |table|
  {
    LastOf(BaseOf(table, n), OffsetsAt(table, n, decode))
  }

  /** No sweep runs over the top of the address space. */
  ghost predicate NoneWraps(table: seq<Record>, decode: RawSection -> Decoder) {
    forall n :: 0 <= n < |table| && Sweeps(table, n, decode) ==> LastPlace(table, n, decode) < TWO_TO_THE_64
  }

  /** The sweep of `a` decodes an instruction at or behind a symbol `b` that is a function only through an alias. */
  predicate Overruns(table: seq<Record>, a: nat, b: nat, decode: RawSection -> Decoder)
    requires a < |table| && b < |table|
  {
    && Sweeps(table, a, decode) && Sweeps(table, b, decode) && !OwnFunction(table[b])
    && BaseOf(table, b) <= LastPlace(table, a, decode)
  }

  ghost predicate NoneOverruns(table: seq<Record>, decode: RawSection -> Decoder) {
    forall a, b :: 0 <= a < b < |table| ==> !Overruns(table, a, b, decode)
  }

  /** Every sweep ends before the next one begins. */
  ghost predicate SweepsApart(table: seq<Record>, decode: RawSection -> Decoder) {
    Sorted(table) && NoneWraps(table, decode) && NoneOverruns(table, decode)
  }

  /** Every swept symbol is a function by its own flags, and every range fits. */
  predicate CleanTable(table: seq<Record>) {
    && Sorted(table)
    && forall n :: 0 <= n < |table| && IsFunction(table[n]) ==> OwnFunction(table[n]) && RangeFits(table, n)
  }

  /** The same in terms of sections: each swept symbol is bounded by a later function or lies in its section. */
  predicate SectionedTable(table: seq<Record>) {
    && Sorted(table)
    && forall n :: 0 <= n < |table| && IsFunction(table[n]) ==>
      OwnFunction(table[n]) && (ClosestFunction(table, n, n) < |table| || InSection(table[n]))
  }

  lemma SectionedIsClean(table: seq<Record>)
    requires SectionedTable(table)
    ensures CleanTable(table)
  {
    forall n | 0 <= n < |table| && IsFunction(table[n]) ensures RangeFits(table, n) {
      RangeFitsInSection(table, n);
    }
  }

  lemma FittingPlace(table: seq<Record>, n: nat, decode: RawSection -> Decoder)
    requires n < |table| && Sweeps(table, n, decode) && RangeFits(table, n)
    ensures LastPlace(table, n, decode) < TWO_TO_THE_64
  {
    SweptLaidOut(table, n, decode);
  }

  /** In a table of functions by their own flags whose ranges fit, sweeps are apart whatever is decoded. */
  lemma {:induction false} CleanApart(table: seq<Record>, decode: RawSection -> Decoder)
    requires CleanTable(table)
    ensures SweepsApart(table, decode)
  {
    forall n | 0 <= n < |table| && Sweeps(table, n, decode) ensures LastPlace(table, n, decode) < TWO_TO_THE_64 {
      FittingPlace(table, n, decode);
    }
  }

  /** From the address of a symbol to its last instruction. */
  function SpanAt(table: seq<Record>, n: nat, decode: RawSection -> Decoder): Range
    requires n < |table|
  {
    if Sweeps(table, n, decode) then Range(BaseOf(table, n), LastPlace(table, n, decode) + 1) else Range(0, 0)
  }

  function SpansOf(table: seq<Record>, decode: RawSection -> Decoder): Ranges {
    (n: nat) => if n < |table| then SpanAt(table, n, decode) else Range(0, 0)
  }

  lemma PairOfSpans(table: seq<Record>, a: nat, b: nat, decode: RawSection -> Decoder)
    requires SweepsApart(table, decode) && a < b < |table|
    ensures Apart(SpanAt(table, a, decode), SpanAt(table, b, decode))
  {
    if Sweeps(table, a, decode) && Sweeps(table, b, decode) {
      assert !Overruns(table, a, b, decode);
      if OwnFunction(table[b]) {
        OwnFunctionApart(table, a, b, decode);
      }
    }
  }

  lemma SpansApart(table: seq<Record>, decode: RawSection -> Decoder, n: nat)
    requires SweepsApart(table, decode)
    ensures RangesApart(SpansOf(table, decode), n, |table|)
  {
    var spans := SpansOf(table, decode);
    forall a: nat, b: nat | n <= a < b < |table| ensures Apart(spans(a), spans(b)) {
      PairOfSpans(table, a, b, decode);
    }
  }

  lemma OpenedInside(swept: seq<Swept>, base: Address, high: nat, owner: RawSymbol)
    requires Tiles(swept, base, high)
    ensures
      var starts, leaders := Starts(swept), Leaders(base, swept);
      var newBlocks := OpenedBlocks(leaders, owner, Pointer(starts, leaders, |starts|));
      AscendingBlocks(newBlocks) && forall b :: b in newBlocks ==> base <= b.id < high
  {
    var starts, leaders := Starts(swept), Leaders(base, swept);
    StartsAscending(swept, base, high);
    OpensLongestPrefix(starts, leaders);
    assert forall i :: 0 <= i < Pointer(starts, leaders, |starts|) ==> leaders[i] in starts;
  }

  lemma EmittedInside(swept: seq<Swept>, leaders: seq<Address>, base: Address, high: nat, owner: RawSymbol,
                      before: seq<BasicBlock>)
    requires Tiles(swept, base, high) && !NoBlock(Starts(swept), leaders, before)
    ensures
      var emitted := Emitted(swept, leaders, owner, before, |swept|);
      AscendingInstructions(emitted) && forall i :: i in emitted ==> base <= i.address < high
  {
    StartsAscending(swept, base, high);
    var emitted := Emitted(swept, leaders, owner, before, |swept|);
    assert forall k :: 0 <= k < |emitted| ==> emitted[k].address == Starts(swept)[k];
  }

  lemma AddSweepInside(swept: seq<Swept>, base: Address, high: nat, owner: RawSymbol, blocks: seq<BasicBlock>,
                       o: Outcome)
    requires Tiles(swept, base, high) && o == AddSweep(swept, base, owner, blocks)
    ensures Inside(o, blocks, Range(base, high))
  {
    var starts, leaders := Starts(swept), Leaders(base, swept);
    if !NoBlock(starts, leaders, blocks) {
      OpenedInside(swept, base, high, owner);
      EmittedInside(swept, leaders, base, high, owner, blocks);
      var newBlocks := OpenedBlocks(leaders, owner, Pointer(starts, leaders, |starts|));
      assert (blocks + newBlocks)[|blocks|..] == newBlocks;
    }
  }

  lemma TightLaidOut(swept: seq<Swept>, offsets: seq<nat>, base: Address, max: int)
    requires LaidOut(swept, offsets, base, 0, max) && swept != []
    ensures LaidOut(swept, offsets, base, 0, offsets[|swept| - 1] + 1)
  {
    forall i | 0 <= i < |swept| ensures StandsAt(swept[i], base + offsets[i]) && offsets[i] <= offsets[|swept| - 1] {
      assert StandsAt(swept[i], base + offsets[i]);
      if i < |swept| - 1 {
        OffsetsAscend(swept, offsets, base, 0, max, i, |swept| - 1);
      }
    }
  }

  lemma SpanTiles(swept: seq<Swept>, offsets: seq<nat>, base: Address, max: int)
    requires LaidOut(swept, offsets, base, 0, max) && (swept != [] ==> LastOf(base, offsets) < TWO_TO_THE_64)
    ensures Tiles(swept, base, LastOf(base, offsets) + 1)
  {
    if swept != [] {
      TightLaidOut(swept, offsets, base, max);
      FittingTiles(swept, offsets, base, 0, offsets[|swept| - 1] + 1);
    }
  }

  /** Unless it wraps, the instructions of a symbol tile its span from its address. */
  lemma SweptAtTiles(table: seq<Record>, n: nat, decode: RawSection -> Decoder)
    requires n < |table| && (Sweeps(table, n, decode) ==> LastPlace(table, n, decode) < TWO_TO_THE_64)
    ensures IsFunction(table[n]) ==>
      Tiles(SweptAt(table, n, decode), BaseOf(table, n), LastPlace(table, n, decode) + 1)
  {
    if IsFunction(table[n]) {
      SweptLaidOut(table, n, decode);
      SpanTiles(SweptAt(table, n, decode), OffsetsAt(table, n, decode), BaseOf(table, n), MaxOffset(table, n));
    }
  }

  lemma NothingInside(base: Address, owner: RawSymbol, blocks: seq<BasicBlock>, r: Range)
    ensures Inside(AddSweep([], base, owner, blocks), blocks, r)
  {
  }

  /** What one symbol contributes is in order and stays inside its span. */
  lemma {:induction false} StepOrdered(table: seq<Record>, n: nat, decode: RawSection -> Decoder,
                                       blocks: seq<BasicBlock>)
    requires n < |table| && (Sweeps(table, n, decode) ==> LastPlace(table, n, decode) < TWO_TO_THE_64)
    ensures Inside(StepAt(table, n, decode, blocks), blocks, SpanAt(table, n, decode))
  {
    if Sweeps(table, n, decode) {
      var base, high := BaseOf(table, n), LastPlace(table, n, decode) + 1;
      var o := StepAt(table, n, decode, blocks);
      SweptAtTiles(table, n, decode);
      AddSweepInside(SweptAt(table, n, decode), base, high, table[n].origin, blocks, o);
    } else if IsFunction(table[n]) {
      NothingInside(BaseOf(table, n), table[n].origin, blocks, SpanAt(table, n, decode));
    }
  }

  lemma StepsInSpans(table: seq<Record>, decode: RawSection -> Decoder)
    requires SweepsApart(table, decode)
    ensures StepsInside(StepsOf(table, decode), SpansOf(table, decode))
  {
    var step, spans := StepsOf(table, decode), SpansOf(table, decode);
    forall n: nat, blocks: seq<BasicBlock> ensures Inside(step(n, blocks), blocks, spans(n)) {
      if n < |table| {
        StepOrdered(table, n, decode, blocks);
      }
    }
  }

  /**
   When the sweeps are apart, from blocks that all stand before the symbols still to be swept, the emitted
   addresses and the block ids ascend strictly.
   */
  lemma {:induction false} RunOrdered(table: seq<Record>, n: nat, decode: RawSection -> Decoder,
                                      blocks: seq<BasicBlock>)
    requires n <= |table| && SweepsApart(table, decode) && AscendingBlocks(blocks)
    requires BlocksBefore(blocks, SpansOf(table, decode), n, |table|)
    ensures var run := RunSteps(StepsOf(table, decode), n, |table|, blocks);
      AscendingInstructions(run.instructions) && AscendingBlocks(run.blocks)
  {
    StepsInSpans(table, decode);
    SpansApart(table, decode, n);
    RunAscends(StepsOf(table, decode), SpansOf(table, decode), n, |table|, blocks);
  }

  /** The whole run, from an empty block buffer; unless it fails the sweeps follow each other, each tiling its span. */
  lemma {:induction false} WholeRunOrdered(table: seq<Record>, decode: RawSection -> Decoder)
    requires SweepsApart(table, decode)
    ensures var run := RunAll(table, decode, []);
      && AscendingInstructions(run.instructions) && AscendingBlocks(run.blocks)
      && (run.ok ==> AddressesOf(run.instructions) == Concatenated(PartsOf(table, decode), 0, |table|))
    ensures forall n :: 0 <= n < |table| && IsFunction(table[n]) ==>
      Tiles(SweptAt(table, n, decode), BaseOf(table, n), LastPlace(table, n, decode) + 1)
  {
    RunOrdered(table, 0, decode, []);
    if RunAll(table, decode, []).ok {
      RunEmits(table, decode, []);
    }
    forall n | 0 <= n < |table| && IsFunction(table[n])
      ensures Tiles(SweptAt(table, n, decode), BaseOf(table, n), LastPlace(table, n, decode) + 1)
    {
      SweptAtTiles(table, n, decode);
    }
  }

  /** So it is for functions by their own flags that are bounded by a later function or lie in their sections. */
  lemma {:induction false} SectionedRunOrdered(table: seq<Record>, decode: RawSection -> Decoder)
    requires SectionedTable(table)
    ensures SweepsApart(table, decode)
    ensures var run := RunAll(table, decode, []);
      AscendingInstructions(run.instructions) && AscendingBlocks(run.blocks)
  {
    SectionedIsClean(table);
    CleanApart(table, decode);
    WholeRunOrdered(table, decode);
  }

  /** Behind blocks in ascending order, of which `count` and no more stand at or before an address. */
  lemma GreatestOf(before: seq<BasicBlock>, newBlocks: seq<BasicBlock>, count: nat, first: Address, a: Address)
    requires AscendingBlocks(before) && AscendingBlocks(newBlocks) && count <= |newBlocks| && first <= a
    requires before != [] || count > 0
    requires forall b :: b in before ==> b.id < first
    requires forall i :: 0 <= i < count ==> first <= newBlocks[i].id <= a
    requires forall i :: count <= i < |newBlocks| ==> a < newBlocks[i].id
    ensures
      var parent := if count > 0 then newBlocks[count - 1] else before[|before| - 1];
      && parent in before + newBlocks && parent.id <= a
      && forall b :: b in before + newBlocks && b.id <= a ==> b.id <= parent.id
  {
    var parent := if count > 0 then newBlocks[count - 1] else before[|before| - 1];
    forall b | b in newBlocks && b.id <= a ensures b.id <= parent.id {
      var i :| 0 <= i < |newBlocks| && newBlocks[i] == b;
      assert i < count;
    }
  }

  lemma OpenedParent(starts: seq<Address>, leaders: seq<Address>, owner: RawSymbol, blocks: seq<BasicBlock>, k: nat)
    requires Ascending(starts) && Ascending(leaders) && k < |starts| && AscendingBlocks(blocks)
    requires blocks != [] || Pointer(starts, leaders, k + 1) > 0
    requires forall b :: b in blocks ==> b.id < starts[0]
    ensures
      var parent := ParentOf(starts, leaders, owner, blocks, k);
      var all := blocks + OpenedBlocks(leaders, owner, Pointer(starts, leaders, |starts|));
      parent in all && parent.id <= starts[k] && forall b :: b in all && b.id <= starts[k] ==> b.id <= parent.id
  {
    var count, all := Pointer(starts, leaders, k + 1), Pointer(starts, leaders, |starts|);
    OpenedSplit(starts, leaders, k, count, all);
    GreatestOf(blocks, OpenedBlocks(leaders, owner, all), count, starts[0], starts[k]);
  }

  lemma EmittedParent(swept: seq<Swept>, base: Address, high: nat, owner: RawSymbol, blocks: seq<BasicBlock>, k: nat)
    requires Tiles(swept, base, high) && k < |swept| && !NoBlock(Starts(swept), Leaders(base, swept), blocks)
    requires AscendingBlocks(blocks) && forall b :: b in blocks ==> b.id < base
    ensures
      var starts, leaders := Starts(swept), Leaders(base, swept);
      ParentGreatest(Emitted(swept, leaders, owner, blocks, |swept|)[k],
                     blocks + OpenedBlocks(leaders, owner, Pointer(starts, leaders, |starts|)))
  {
    var starts, leaders := Starts(swept), Leaders(base, swept);
    StartsAscending(swept, base, high);
    HasBlock(starts, leaders, blocks, k);
    OpenedParent(starts, leaders, owner, blocks, k);
  }

  lemma AddSweepParents(swept: seq<Swept>, base: Address, high: nat, owner: RawSymbol, blocks: seq<BasicBlock>)
    requires Tiles(swept, base, high) && AscendingBlocks(blocks)
    requires swept != [] ==> forall b :: b in blocks ==> b.id < base
    ensures var o := AddSweep(swept, base, owner, blocks); ParentsGreatest(o.instructions, o.blocks)
  {
    var o := AddSweep(swept, base, owner, blocks);
    if o.ok {
      forall k | 0 <= k < |o.instructions| ensures ParentGreatest(o.instructions[k], o.blocks) {
        EmittedParent(swept, base, high, owner, blocks, k);
      }
    }
  }

  lemma StepParents(table: seq<Record>, n: nat, decode: RawSection -> Decoder, blocks: seq<BasicBlock>)
    requires n < |table| && AscendingBlocks(blocks) && StandBefore(blocks, SpanAt(table, n, decode))
    requires Sweeps(table, n, decode) ==> LastPlace(table, n, decode) < TWO_TO_THE_64
    ensures var o := StepAt(table, n, decode, blocks); ParentsGreatest(o.instructions, o.blocks)
  {
    if IsFunction(table[n]) {
      var base, high := BaseOf(table, n), LastPlace(table, n, decode) + 1;
      SweptAtTiles(table, n, decode);
      AddSweepParents(SweptAt(table, n, decode), base, high, table[n].origin, blocks);
    }
  }

  lemma SpanParents(table: seq<Record>, decode: RawSection -> Decoder)
    requires NoneWraps(table, decode)
    ensures StepsParent(StepsOf(table, decode), SpansOf(table, decode))
  {
    var step, spans := StepsOf(table, decode), SpansOf(table, decode);
    forall n: nat, blocks: seq<BasicBlock> | AscendingBlocks(blocks) && StandBefore(blocks, spans(n))
      ensures ParentsGreatest(step(n, blocks).instructions, step(n, blocks).blocks)
    {
      if n < |table| {
        StepParents(table, n, decode, blocks);
      }
    }
  }

  /**
   When the sweeps are apart - and that is when the emitted addresses ascend - then, wherever jumps lead, the
   parent of every instruction of the whole run is the block with the greatest id not above it among all
   blocks of the listing, whichever function they come from.
   */
  lemma {:induction false} WholeRunParents(table: seq<Record>, decode: RawSection -> Decoder)
    requires SweepsApart(table, decode)
    ensures var run := RunAll(table, decode, []); ParentsGreatest(run.instructions, run.blocks)
  {
    StepsInSpans(table, decode);
    SpansApart(table, decode, 0);
    SpanParents(table, decode);
    RunParents(StepsOf(table, decode), SpansOf(table, decode), 0, |table|, []);
  }

  /** All recognised targets up to the last instruction of a function are instruction starts. */
  ghost predicate TargetsFit(swept: seq<Swept>) {
    swept != [] ==> TargetsAreStarts(swept) && LastFallsThrough(swept)
  }

  ghost predicate AllTargetsFit(table: seq<Record>, decode: RawSection -> Decoder) {
    forall n :: 0 <= n < |table| && IsFunction(table[n]) ==> TargetsFit(SweptAt(table, n, decode))
  }

  /** A run in which all recognised targets are instruction starts does not fail. */
  lemma {:induction false} TargetsFitSucceeds(table: seq<Record>, decode: RawSection -> Decoder)
    requires NoneWraps(table, decode) && AllTargetsFit(table, decode)
    ensures RunAll(table, decode, []).ok
  {
    RunFailsExactly(table, decode, []);
    if f :| 0 <= f < |table| && FirstJumpsBefore(table, f, decode) {
      SweptAtTiles(table, f, decode);
      NothingBefore(SweptAt(table, f, decode), BaseOf(table, f), LastPlace(table, f, decode) + 1);
    }
  }

  lemma NothingBefore(swept: seq<Swept>, base: Address, high: nat)
    requires Tiles(swept, base, high) && swept != [] && TargetsFit(swept)
    ensures !JumpsBefore(swept, base)
  {
    LeadersFromTargets(swept, base, high, swept[|swept| - 1].address);
    FirstLeader(swept, base);
    var leaders := Leaders(base, swept);
    assert leaders[0] in leaders;
    assert forall a :: a in Starts(swept) ==> base <= a;
  }

  /**
   What the outcome of a run from nothing is like: it fails only at its first function; otherwise its addresses
   ascend exactly when the sweeps are apart, and then every instruction has the right parent.
   */
  ghost predicate FreshOutcome(table: seq<Record>, decode: RawSection -> Decoder, run: Outcome) {
    && (run.ok <==> !exists f :: 0 <= f < |table| && FirstJumpsBefore(table, f, decode))
    && (Sorted(table) && run.ok ==> (AscendingInstructions(run.instructions) <==> SweepsApart(table, decode)))
    && (SweepsApart(table, decode) ==> InOrder(run))
    && (SweepsApart(table, decode) && AllTargetsFit(table, decode) ==> run.ok)
  }

  ghost predicate InOrder(run: Outcome) {
    && AscendingInstructions(run.instructions) && AscendingBlocks(run.blocks)
    && ParentsGreatest(run.instructions, run.blocks)
  }

  lemma RunInOrder(table: seq<Record>, decode: RawSection -> Decoder)
    requires SweepsApart(table, decode)
    ensures InOrder(RunAll(table, decode, []))
    ensures AllTargetsFit(table, decode) ==> RunAll(table, decode, []).ok
  {
    WholeRunOrdered(table, decode);
    WholeRunParents(table, decode);
    if AllTargetsFit(table, decode) {
      TargetsFitSucceeds(table, decode);
    }
  }

  lemma RunFromNothing(table: seq<Record>, decode: RawSection -> Decoder)
    ensures FreshOutcome(table, decode, RunAll(table, decode, []))
  {
    RunFailsExactly(table, decode, []);
    if Sorted(table) && RunAll(table, decode, []).ok {
      RunAscendsExactly(table, decode, []);
    }
    if SweepsApart(table, decode) {
      RunInOrder(table, decode);
    }
  }

  lemma FreshListing(table: seq<Record>, decode: RawSection -> Decoder, blocks: seq<BasicBlock>,
                     instructions: seq<Instruction>, run: Outcome)
    requires run == RunAll(table, decode, blocks)
    ensures blocks == [] && instructions == [] ==>
      FreshOutcome(table, decode, Outcome(run.blocks, instructions + run.instructions, run.ok))
  {
    if blocks == [] && instructions == [] {
      RunFromNothing(table, decode);
      assert instructions + run.instructions == run.instructions;
    }
  }

  // ----- the order of the emitted addresses, exactly -----

  /** The addresses a symbol contributes. */
  function AddressesAt(table: seq<Record>, n: nat, decode: RawSection -> Decoder): (s: seq<Address>)
    requires n < |table|
  {
    if IsFunction(table[n]) then Starts(SweptAt(table, n, decode)) else []
  }

  function PartsOf(table: seq<Record>, decode: RawSection -> Decoder): Parts {
    (n: nat) => if n < |table| then AddressesAt(table, n, decode) else []
  }

  lemma StepAddresses(table: seq<Record>, n: nat, decode: RawSection -> Decoder, blocks: seq<BasicBlock>)
    requires n < |table| && StepAt(table, n, decode, blocks).ok
    ensures AddressesOf(StepAt(table, n, decode, blocks).instructions) == AddressesAt(table, n, decode)
  {
  }

  /** A run that does not fail emits the instructions of all symbols, one after the other. */
  lemma {:induction false} RunEmits(table: seq<Record>, decode: RawSection -> Decoder, blocks: seq<BasicBlock>)
    requires RunAll(table, decode, blocks).ok
    ensures AddressesOf(RunAll(table, decode, blocks).instructions) == Concatenated(PartsOf(table, decode), 0, |table|)
  {
    StepsEmit(table, decode);
    RunEmitsParts(StepsOf(table, decode), PartsOf(table, decode), 0, |table|, blocks);
  }

  lemma StepsEmit(table: seq<Record>, decode: RawSection -> Decoder)
    ensures EmitsParts(StepsOf(table, decode), PartsOf(table, decode))
  {
    var step, parts := StepsOf(table, decode), PartsOf(table, decode);
    forall n: nat, blocks: seq<BasicBlock> | step(n, blocks).ok
      ensures AddressesOf(step(n, blocks).instructions) == parts(n)
    {
      if n < |table| {
        StepAddresses(table, n, decode, blocks);
      }
    }
  }

  lemma SweepAscends(swept: seq<Swept>, offsets: seq<nat>, base: Address, max: int)
    requires LaidOut(swept, offsets, base, 0, max) && max <= TWO_TO_THE_64
    ensures Ascending(Starts(swept)) <==> (swept != [] ==> LastOf(base, offsets) < TWO_TO_THE_64)
  {
    if swept != [] {
      AscendsUnlessWrapped(swept, offsets, base, max);
    }
  }

  lemma PartAscends(table: seq<Record>, n: nat, decode: RawSection -> Decoder)
    requires n < |table|
    ensures Ascending(AddressesAt(table, n, decode)) <==>
      (Sweeps(table, n, decode) ==> LastPlace(table, n, decode) < TWO_TO_THE_64)
  {
    SweptLaidOut(table, n, decode);
    SweepAscends(SweptAt(table, n, decode), OffsetsAt(table, n, decode), BaseOf(table, n), MaxOffset(table, n));
  }

  lemma EndsOf(swept: seq<Swept>, offsets: seq<nat>, base: Address, max: int)
    requires LaidOut(swept, offsets, base, 0, max) && swept != [] && base + offsets[|swept| - 1] < TWO_TO_THE_64
    ensures swept[0].address == base && swept[|swept| - 1].address == base + offsets[|swept| - 1]
  {
    assert StandsAt(swept[0], base + offsets[0]) && StandsAt(swept[|swept| - 1], base + offsets[|swept| - 1]);
  }

  /** The first and the last address of a sweep that does not wrap. */
  lemma PartEnds(table: seq<Record>, n: nat, decode: RawSection -> Decoder)
    requires n < |table| && Sweeps(table, n, decode) && LastPlace(table, n, decode) < TWO_TO_THE_64
    ensures var s := AddressesAt(table, n, decode);
      s != [] && s[0] == BaseOf(table, n) && s[|s| - 1] == LastPlace(table, n, decode)
  {
    SweptLaidOut(table, n, decode);
    EndsOf(SweptAt(table, n, decode), OffsetsAt(table, n, decode), BaseOf(table, n), MaxOffset(table, n));
  }

  lemma AscendingBelow(s: seq<Address>, t: seq<Address>)
    requires Ascending(s) && Ascending(t) && s != [] && t != []
    ensures Below(s, t) <==> s[|s| - 1] < t[0]
  {
    assert s[|s| - 1] in s && t[0] in t;
    forall x, y | x in s && y in t && s[|s| - 1] < t[0] ensures x < y {
      var i :| 0 <= i < |s| && s[i] == x;
      var j :| 0 <= j < |t| && t[j] == y;
      assert x <= s[|s| - 1] && t[0] <= y;
    }
  }

  lemma PartsBelow(table: seq<Record>, a: nat, b: nat, decode: RawSection -> Decoder)
    requires a < b < |table|
    requires Sweeps(table, a, decode) ==> LastPlace(table, a, decode) < TWO_TO_THE_64
    requires Sweeps(table, b, decode) ==> LastPlace(table, b, decode) < TWO_TO_THE_64
    ensures Below(AddressesAt(table, a, decode), AddressesAt(table, b, decode)) <==>
      (Sweeps(table, a, decode) && Sweeps(table, b, decode) ==> LastPlace(table, a, decode) < BaseOf(table, b))
  {
    SweptLaidOut(table, a, decode);
    SweptLaidOut(table, b, decode);
    if Sweeps(table, a, decode) && Sweeps(table, b, decode) {
      PartAscends(table, a, decode);
      PartAscends(table, b, decode);
      PartEnds(table, a, decode);
      PartEnds(table, b, decode);
      AscendingBelow(AddressesAt(table, a, decode), AddressesAt(table, b, decode));
    }
  }

  /** A function by its own flags ends the range of everything before it. */
  lemma OwnFunctionApart(table: seq<Record>, a: nat, b: nat, decode: RawSection -> Decoder)
    requires Sorted(table) && a < b < |table| && OwnFunction(table[b]) && Sweeps(table, a, decode)
    ensures LastPlace(table, a, decode) < BaseOf(table, b)
  {
    NextBeginsBehind(table, a, b);
    SweptLaidOut(table, a, decode);
  }

  lemma PartsAscend(table: seq<Record>, decode: RawSection -> Decoder)
    ensures AllAscend(PartsOf(table, decode), 0, |table|) <==> NoneWraps(table, decode)
  {
    forall n | 0 <= n < |table|
      ensures Ascending(PartsOf(table, decode)(n)) <==>
        (Sweeps(table, n, decode) ==> LastPlace(table, n, decode) < TWO_TO_THE_64)
    {
      PartAscends(table, n, decode);
    }
  }

  lemma PairBelow(table: seq<Record>, a: nat, b: nat, decode: RawSection -> Decoder)
    requires Sorted(table) && a < b < |table| && NoneWraps(table, decode)
    ensures Below(PartsOf(table, decode)(a), PartsOf(table, decode)(b)) <==> !Overruns(table, a, b, decode)
  {
    PartsBelow(table, a, b, decode);
    if OwnFunction(table[b]) && Sweeps(table, a, decode) {
      OwnFunctionApart(table, a, b, decode);
    }
  }

  lemma PartsApart(table: seq<Record>, decode: RawSection -> Decoder)
    requires Sorted(table) && NoneWraps(table, decode)
    ensures AllBelow(PartsOf(table, decode), 0, |table|) <==> NoneOverruns(table, decode)
  {
    var parts := PartsOf(table, decode);
    if AllBelow(parts, 0, |table|) {
      forall a, b | 0 <= a < b < |table| ensures !Overruns(table, a, b, decode) {
        PairBelow(table, a, b, decode);
        assert Below(parts(a), parts(b));
      }
    }
    if NoneOverruns(table, decode) {
      forall a, b | 0 <= a < b < |table| ensures Below(parts(a), parts(b)) {
        PairBelow(table, a, b, decode);
      }
    }
  }

  /**
   The emitted addresses of a run that does not fail ascend strictly exactly when no sweep runs over the top
   of the address space and none reaches a later symbol that is a function only through an alias and has an
   instruction of its own.
   */
  lemma {:induction false} RunAscendsExactly(table: seq<Record>, decode: RawSection -> Decoder,
                                             blocks: seq<BasicBlock>)
    requires Sorted(table) && RunAll(table, decode, blocks).ok
    ensures AscendingInstructions(RunAll(table, decode, blocks).instructions)
      <==> NoneWraps(table, decode) && NoneOverruns(table, decode)
  {
    var s := RunAll(table, decode, blocks).instructions;
    RunEmits(table, decode, blocks);
    ConcatenatedAscends(PartsOf(table, decode), 0, |table|);
    PartsAscend(table, decode);
    if NoneWraps(table, decode) {
      PartsApart(table, decode);
    }
    assert AscendingInstructions(s) <==> Ascending(AddressesOf(s));
  }

  // ----- the order of the block ids, exactly -----

  /** The ids of the blocks a symbol opens. */
  function IdsAt(table: seq<Record>, n: nat, decode: RawSection -> Decoder): (s: seq<Address>)
    requires n < |table|
    ensures Ascending(s)
  {
    if IsFunction(table[n]) then
      var starts := Starts(SweptAt(table, n, decode));
      var leaders := Leaders(BaseOf(table, n), SweptAt(table, n, decode));
      leaders[..Pointer(starts, leaders, |starts|)]
    else []
  }

  function IdPartsOf(table: seq<Record>, decode: RawSection -> Decoder): Parts {
    (n: nat) => if n < |table| then IdsAt(table, n, decode) else []
  }

  lemma AddSweepOpens(swept: seq<Swept>, base: Address, owner: RawSymbol, blocks: seq<BasicBlock>)
    requires AddSweep(swept, base, owner, blocks).ok
    ensures
      var starts, leaders := Starts(swept), Leaders(base, swept);
      IdsOf(AddSweep(swept, base, owner, blocks).blocks)
        == IdsOf(blocks) + leaders[..Pointer(starts, leaders, |starts|)]
  {
  }

  lemma StepsOpen(table: seq<Record>, decode: RawSection -> Decoder)
    ensures OpensParts(StepsOf(table, decode), IdPartsOf(table, decode))
  {
    var step, parts := StepsOf(table, decode), IdPartsOf(table, decode);
    forall n: nat, blocks: seq<BasicBlock> | step(n, blocks).ok
      ensures IdsOf(step(n, blocks).blocks) == IdsOf(blocks) + parts(n)
    {
      if n < |table| && IsFunction(table[n]) {
        AddSweepOpens(SweptAt(table, n, decode), BaseOf(table, n), table[n].origin, blocks);
      } else {
        assert IdsOf(blocks) + [] == IdsOf(blocks);
      }
    }
  }

  /** The blocks a symbol opens stand at instructions of its own. */
  lemma IdsAreAddresses(table: seq<Record>, n: nat, decode: RawSection -> Decoder, i: nat)
    requires n < |table| && i < |IdsAt(table, n, decode)|
    ensures IsFunction(table[n]) && IdsAt(table, n, decode)[i] in Starts(SweptAt(table, n, decode))
  {
    var starts := Starts(SweptAt(table, n, decode));
    OpenedAreStarts(starts, Leaders(BaseOf(table, n), SweptAt(table, n, decode)), |starts|, i);
    assert starts[..|starts|] == starts;
  }

  lemma StartBoundsAt(swept: seq<Swept>, offsets: seq<nat>, base: Address, max: int, i: nat)
    requires LaidOut(swept, offsets, base, 0, max) && i < |swept| && base + offsets[|swept| - 1] < TWO_TO_THE_64
    ensures base <= swept[i].address <= base + offsets[|swept| - 1]
  {
    assert StandsAt(swept[i], base + offsets[i]);
    if i < |swept| - 1 {
      OffsetsAscend(swept, offsets, base, 0, max, i, |swept| - 1);
    }
  }

  lemma StartBounds(swept: seq<Swept>, offsets: seq<nat>, base: Address, max: int, a: Address)
    requires LaidOut(swept, offsets, base, 0, max) && a in Starts(swept) && LastOf(base, offsets) < TWO_TO_THE_64
    ensures base <= a <= LastOf(base, offsets)
  {
    var i :| 0 <= i < |swept| && Starts(swept)[i] == a;
    StartBoundsAt(swept, offsets, base, max, i);
  }

  lemma IdBounds(table: seq<Record>, n: nat, decode: RawSection -> Decoder, i: nat)
    requires n < |table| && i < |IdsAt(table, n, decode)| && LastPlace(table, n, decode) < TWO_TO_THE_64
    ensures Sweeps(table, n, decode)
    ensures BaseOf(table, n) <= IdsAt(table, n, decode)[i] <= LastPlace(table, n, decode)
  {
    IdsAreAddresses(table, n, decode, i);
    SweptLaidOut(table, n, decode);
    var max, id := MaxOffset(table, n), IdsAt(table, n, decode)[i];
    StartBounds(SweptAt(table, n, decode), OffsetsAt(table, n, decode), BaseOf(table, n), max, id);
  }

  /** The first block of `b` does not stand behind the last one of `a`. */
  predicate BlocksOverrun(table: seq<Record>, a: nat, b: nat, decode: RawSection -> Decoder)
    requires a < |table| && b < |table|
  {
    var s, t := IdsAt(table, a, decode), IdsAt(table, b, decode);
    s != [] && t != [] && t[0] <= s[|s| - 1]
  }

  /** A symbol that is no function by its own flags, or one whose sweep runs over the top of the address space. */
  predicate Exposed(table: seq<Record>, b: nat, decode: RawSection -> Decoder)
    requires b < |table|
  {
    !OwnFunction(table[b]) || LastPlace(table, b, decode) >= TWO_TO_THE_64
  }

  lemma OwnBlocksApart(table: seq<Record>, a: nat, b: nat, decode: RawSection -> Decoder)
    requires Sorted(table) && a < b < |table| && !Exposed(table, b, decode)
    ensures !BlocksOverrun(table, a, b, decode)
  {
    var s, t := IdsAt(table, a, decode), IdsAt(table, b, decode);
    if s != [] && t != [] {
      IdsAreAddresses(table, a, decode, |s| - 1);
      OwnFunctionApart(table, a, b, decode);
      IdBounds(table, a, decode, |s| - 1);
      IdBounds(table, b, decode, 0);
    }
  }

  /** No symbol opens a block at or behind the first block of a later exposed symbol. */
  ghost predicate NoneBlocksOverrun(table: seq<Record>, decode: RawSection -> Decoder) {
    forall a, b :: 0 <= a < b < |table| && Exposed(table, b, decode) ==> !BlocksOverrun(table, a, b, decode)
  }

  lemma IdsBelow(table: seq<Record>, a: nat, b: nat, decode: RawSection -> Decoder)
    requires a < |table| && b < |table|
    ensures Below(IdsAt(table, a, decode), IdsAt(table, b, decode)) <==> !BlocksOverrun(table, a, b, decode)
  {
    var s, t := IdsAt(table, a, decode), IdsAt(table, b, decode);
    if s != [] && t != [] {
      AscendingBelow(s, t);
    }
  }

  lemma IdPartsInOrder(table: seq<Record>, decode: RawSection -> Decoder)
    requires Sorted(table)
    ensures AllAscend(IdPartsOf(table, decode), 0, |table|)
    ensures AllBelow(IdPartsOf(table, decode), 0, |table|) <==> NoneBlocksOverrun(table, decode)
  {
    var parts := IdPartsOf(table, decode);
    if AllBelow(parts, 0, |table|) {
      forall a, b | 0 <= a < b < |table| ensures !BlocksOverrun(table, a, b, decode) {
        IdsBelow(table, a, b, decode);
        assert Below(parts(a), parts(b));
      }
    }
    if NoneBlocksOverrun(table, decode) {
      forall a, b | 0 <= a < b < |table| ensures Below(parts(a), parts(b)) {
        IdsBelow(table, a, b, decode);
        if !Exposed(table, b, decode) {
          OwnBlocksApart(table, a, b, decode);
        }
      }
    }
  }

  lemma AscendingIds(blocks: seq<BasicBlock>)
    ensures AscendingBlocks(blocks) <==> Ascending(IdsOf(blocks))
  {
  }

  /** A run that does not fail opens the blocks of all symbols, one after the other. */
  lemma RunOpens(table: seq<Record>, decode: RawSection -> Decoder, blocks: seq<BasicBlock>)
    requires RunAll(table, decode, blocks).ok
    ensures IdsOf(RunAll(table, decode, blocks).blocks)
         == IdsOf(blocks) + Concatenated(IdPartsOf(table, decode), 0, |table|)
  {
    StepsOpen(table, decode);
    RunOpensParts(StepsOf(table, decode), IdPartsOf(table, decode), 0, |table|, blocks);
  }

  lemma IdsInOrder(table: seq<Record>, decode: RawSection -> Decoder)
    requires Sorted(table)
    ensures Ascending(Concatenated(IdPartsOf(table, decode), 0, |table|)) <==> NoneBlocksOverrun(table, decode)
  {
    ConcatenatedAscends(IdPartsOf(table, decode), 0, |table|);
    IdPartsInOrder(table, decode);
  }

  /**
   The block ids of a run from nothing that does not fail ascend strictly exactly when no symbol opens a block
   at or behind the first block of a later symbol that is a function only through an alias (or whose sweep
   runs over the top of the address space).
   */
  lemma {:induction false} BlocksAscendExactly(table: seq<Record>, decode: RawSection -> Decoder)
    requires Sorted(table) && RunAll(table, decode, []).ok
    ensures AscendingBlocks(RunAll(table, decode, []).blocks) <==> NoneBlocksOverrun(table, decode)
  {
    RunOpens(table, decode, []);
    IdsInOrder(table, decode);
    AscendingIds(RunAll(table, decode, []).blocks);
    NothingInFront(Concatenated(IdPartsOf(table, decode), 0, |table|));
  }

  lemma NothingInFront(s: seq<Address>)
    ensures IdsOf([]) + s == s
  {
  }
}
