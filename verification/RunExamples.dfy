/** Whole runs on the failing side of the exact conditions, and one that overlaps without harm. */
module RunExamples {
  import opened Wrappers
  import opened BasicBlocks
  import opened Symbols
  import opened Disassembler
  import opened FunctionBlocks
  import opened FunctionRanges
  import opened Runs
  import opened WholeRun
  import opened SymbolRegistry

  lemma ReadAt(decode: Decoder, base: Address, offset: nat)
    requires base + offset < TWO_TO_THE_64
    ensures ReaderAt(decode, base)(offset) == Swept(base + offset, decode(base + offset))
  {
    var a: Address := base + offset;
    assert Wrap(base + offset) == a;
  }

  // ----- one function that jumps to a place before it -----

  const TEXT := RawSection(0, 0, 64)

  const BACKWARD := RawSymbol(0, "backward", 16, TEXT, BSF_FUNCTION)

  const BACKWARD_TABLE := [Record(BACKWARD, Section(TEXT), [])]

  /** At 16 a jump to 8, and nothing that can be decoded behind it. */
  function DecodeBackward(a: Address): Decoded {
    if a == 16 then Decoded(2, "jmp    0x8", 8) else Decoded(0, "", NO_JUMP)
  }

  function BackwardDecoder(section: RawSection): Decoder {
    DecodeBackward
  }

  const BACKWARD_SWEPT := [Swept(16, Decoded(2, "jmp    0x8", 8))]

  lemma BackwardSwept()
    ensures SweptAt(BACKWARD_TABLE, 0, BackwardDecoder) == BACKWARD_SWEPT
  {
    var read := ReaderAt(DecodeBackward, 16);
    ReadAt(DecodeBackward, 16, 0);
    ReadAt(DecodeBackward, 16, 2);
    assert DecodeBackward(16) == BACKWARD_SWEPT[0].decoded && DecodeBackward(18).size == 0;
    assert Sweep(read, 2, 48) == [];
    assert Sweep(read, 0, 48) == BACKWARD_SWEPT;
    assert SizeAt(BACKWARD_TABLE, 0) == 48;
  }

  lemma BackwardTable()
    ensures IsTable(BACKWARD_TABLE, [BACKWARD])
  {
    SingleMember(BACKWARD);
    assert BACKWARD in [BACKWARD] && BACKWARD_TABLE[0] in BACKWARD_TABLE;
    assert Members(BACKWARD_TABLE[0]) == [BACKWARD];
  }

  lemma SingleMember(s: RawSymbol)
    ensures SameAddress([s], s.value) == [s]
  {
    assert [s][..0] == [];
  }

  lemma BackwardJumps()
    ensures JumpsBefore(BACKWARD_SWEPT, 16) && !TargetsAreStarts(BACKWARD_SWEPT)
    ensures !TextbookBlock(Starts(BACKWARD_SWEPT), Leaders(16, BACKWARD_SWEPT), 0)
  {
    var s := BACKWARD_SWEPT[0];
    assert s in BACKWARD_SWEPT && IsJump(s);
    FirstLeader(BACKWARD_SWEPT, 16);
  }

  /** It opens no block, its instruction lies in no textbook block, and the run over it alone fails. */
  lemma {:induction false} BackwardJumpFails()
    ensures IsTable(BACKWARD_TABLE, [BACKWARD]) && SweptAt(BACKWARD_TABLE, 0, BackwardDecoder) == BACKWARD_SWEPT
    ensures JumpsBefore(BACKWARD_SWEPT, 16) && !TargetsAreStarts(BACKWARD_SWEPT)
    ensures !TextbookBlock(Starts(BACKWARD_SWEPT), Leaders(16, BACKWARD_SWEPT), 0)
    ensures RunAll(BACKWARD_TABLE, BackwardDecoder, []) == Outcome([], [], false)
  {
    BackwardTable();
    BackwardSwept();
    BackwardJumps();
    assert 3 in BACKWARD.flags * BSF_FUNCTION;
    assert FirstJumpsBefore(BACKWARD_TABLE, 0, BackwardDecoder);
    RunFailsExactly(BACKWARD_TABLE, BackwardDecoder, []);
  }

  // ----- a function known only by an alias, inside the range of another -----

  const CODE := RawSection(1, 0, 8)

  const OUTER := RawSymbol(1, "outer", 0, CODE, BSF_FUNCTION)
  const LABEL := RawSymbol(2, "label", 4, CODE, {})
  const INNER := RawSymbol(3, "inner", 4, CODE, BSF_FUNCTION)

  const ALIAS_TABLE := [Record(OUTER, Section(CODE), []), Record(LABEL, Section(CODE), [INNER])]

  lemma AliasTable()
    ensures IsTable(ALIAS_TABLE, [OUTER, LABEL, INNER])
  {
    var raws := [OUTER, LABEL, INNER];
    assert raws[..2] == [OUTER, LABEL] && [OUTER, LABEL][..1] == [OUTER] && [OUTER][..0] == [];
    assert SameAddress([OUTER], 0) == [OUTER] && SameAddress([OUTER], 4) == [];
    assert SameAddress([OUTER, LABEL], 0) == [OUTER] && SameAddress([OUTER, LABEL], 4) == [LABEL];
    assert SameAddress(raws, 0) == [OUTER] && SameAddress(raws, 4) == [LABEL, INNER];
    assert ALIAS_TABLE[0] in ALIAS_TABLE && ALIAS_TABLE[1] in ALIAS_TABLE;
    assert Members(ALIAS_TABLE[0]) == [OUTER] && Members(ALIAS_TABLE[1]) == [LABEL, INNER];
  }

  /** Two instructions of 4 bytes. */
  function DecodeLong(a: Address): Decoded {
    if a == 0 || a == 4 then Decoded(4, "nop    DWORD PTR [rax+0x0]", NO_JUMP) else Decoded(0, "", NO_JUMP)
  }

  function LongDecoder(section: RawSection): Decoder {
    DecodeLong
  }

  /** Nothing can be decoded at 0. */
  function DecodeLate(a: Address): Decoded {
    if a == 4 then Decoded(4, "nop    DWORD PTR [rax+0x0]", NO_JUMP) else Decoded(0, "", NO_JUMP)
  }

  function LateDecoder(section: RawSection): Decoder {
    DecodeLate
  }

  lemma AliasSizes()
    ensures SizeAt(ALIAS_TABLE, 0) == 8 && SizeAt(ALIAS_TABLE, 1) == 4
    ensures IsFunction(ALIAS_TABLE[0]) && IsFunction(ALIAS_TABLE[1]) && !OwnFunction(ALIAS_TABLE[1])
  {
    assert INNER in ALIAS_TABLE[1].aliases;
    assert 3 in OUTER.flags * BSF_FUNCTION && 3 in INNER.flags * BSF_FUNCTION;
    assert ClosestFunction(ALIAS_TABLE, 0, 0) == 2 && ClosestFunction(ALIAS_TABLE, 1, 1) == 2;
  }

  lemma LongOffsets()
    ensures OffsetsAt(ALIAS_TABLE, 0, LongDecoder) == [0, 4] && OffsetsAt(ALIAS_TABLE, 1, LongDecoder) == [0]
  {
    AliasSizes();
    var outer, inner := ReaderAt(DecodeLong, 0), ReaderAt(DecodeLong, 4);
    ReadAt(DecodeLong, 0, 0);
    ReadAt(DecodeLong, 0, 4);
    ReadAt(DecodeLong, 4, 0);
    assert DecodeLong(0).size == 4 && DecodeLong(4).size == 4;
    assert Offsets(outer, 8, 8) == [];
    assert Offsets(outer, 4, 8) == [4];
    assert Offsets(outer, 0, 8) == [0, 4];
    assert Offsets(inner, 4, 4) == [];
    assert Offsets(inner, 0, 4) == [0];
  }

  lemma LongSweeps()
    ensures Sweeps(ALIAS_TABLE, 0, LongDecoder) && Sweeps(ALIAS_TABLE, 1, LongDecoder)
    ensures LastPlace(ALIAS_TABLE, 0, LongDecoder) == 4
  {
    AliasSizes();
    LongOffsets();
    SweptLaidOut(ALIAS_TABLE, 0, LongDecoder);
    SweptLaidOut(ALIAS_TABLE, 1, LongDecoder);
  }

  lemma LongNeverJumps(n: nat)
    requires n < 2
    ensures forall s :: s in SweptAt(ALIAS_TABLE, n, LongDecoder) ==> !IsJump(s)
  {
    SweepCovers(DecodeLong, BaseOf(ALIAS_TABLE, n), 0, MaxOffset(ALIAS_TABLE, n));
    forall a: Address ensures DecodeLong(a).target == NO_JUMP {
    }
  }

  /** No instruction jumps, so nothing leads before a function. */
  lemma LongRunSucceeds()
    ensures RunAll(ALIAS_TABLE, LongDecoder, []).ok
  {
    RunFailsExactly(ALIAS_TABLE, LongDecoder, []);
    LongNeverJumps(0);
    LongNeverJumps(1);
    forall f | 0 <= f < |ALIAS_TABLE| ensures !FirstJumpsBefore(ALIAS_TABLE, f, LongDecoder) {
    }
  }

  /** The ranges overlap, and the run emits the instruction at 4 twice. */
  lemma {:induction false} AliasSweptTwice()
    ensures IsTable(ALIAS_TABLE, [OUTER, LABEL, INNER]) && !EndsBefore(ALIAS_TABLE, 0, 1)
    ensures var run := RunAll(ALIAS_TABLE, LongDecoder, []); run.ok && !AscendingInstructions(run.instructions)
  {
    AliasTable();
    AliasSizes();
    LongSweeps();
    LongRunSucceeds();
    assert Overruns(ALIAS_TABLE, 0, 1, LongDecoder);
    RunAscendsExactly(ALIAS_TABLE, LongDecoder, []);
  }

  lemma LateOffsets()
    ensures Offsets(ReaderAt(DecodeLate, 0), 0, 8) == [] && Offsets(ReaderAt(DecodeLate, 4), 0, 4) == [0]
  {
    ReadAt(DecodeLate, 0, 0);
    ReadAt(DecodeLate, 4, 0);
    assert DecodeLate(0).size == 0 && DecodeLate(4).size == 4;
    assert Offsets(ReaderAt(DecodeLate, 4), 4, 4) == [];
  }

  lemma LateSweeps()
    ensures !Sweeps(ALIAS_TABLE, 0, LateDecoder) && LastPlace(ALIAS_TABLE, 1, LateDecoder) == 4
  {
    AliasSizes();
    LateOffsets();
    SweptLaidOut(ALIAS_TABLE, 0, LateDecoder);
  }

  lemma LateApart()
    ensures SweepsApart(ALIAS_TABLE, LateDecoder)
  {
    LateSweeps();
  }

  /** The same ranges overlap, but the sweep of the first function stops before the second: the addresses ascend. */
  lemma {:induction false} OverlapWithoutHarm()
    ensures !EndsBefore(ALIAS_TABLE, 0, 1)
    ensures AscendingInstructions(RunAll(ALIAS_TABLE, LateDecoder, []).instructions)
  {
    AliasSizes();
    LateApart();
    WholeRunOrdered(ALIAS_TABLE, LateDecoder);
  }
}
