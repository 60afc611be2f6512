/**
 What a run sends and which blocks it opens, said without the functions that compute it: in terms of the flag
 bits, addresses and sections of the table and of what the decoder of each section finds.
 */
module Contributions {
  import opened Wrappers
  import opened OrderedSet
  import opened BasicBlocks
  import opened Symbols
  import opened Disassembler
  import opened FunctionBlocks
  import opened FunctionRanges
  import opened Runs
  import opened WholeRun

  // ----- one function -----

  /**
   A leader of the sent instructions: the function's address, or the target or fall-through of an instruction
   whose text is matched as a jump - that is, to anything but 2^64-1.
   */
  predicate Leads(x: Address, s: seq<Instruction>, decode: Decoder, base: Address) {
    x == base || exists i :: i in s && JumpLeads(x, i, decode)
  }

  predicate JumpLeads(x: Address, i: Instruction, decode: Decoder) {
    var d := decode(i.address);
    d.target != 0xffff_ffff_ffff_ffff && (x == d.target || x == (i.address + d.size) % 0x1_0000_0000_0000_0000)
  }

  predicate Opened(x: Address, b: seq<BasicBlock>) {
    exists k :: 0 <= k < |b| && b[k].id == x
  }

  predicate Stands(x: Address, s: seq<Instruction>) {
    exists i :: i in s && i.address == x
  }

  /** The least leaders are opened, in ascending order, until one is no instruction. */
  ghost predicate Cut(b: seq<BasicBlock>, s: seq<Instruction>, decode: Decoder, base: Address) {
    && (forall j, k :: 0 <= j < k < |b| ==> b[j].id < b[k].id)
    && (forall k :: 0 <= k < |b| ==> Leads(b[k].id, s, decode, base) && Stands(b[k].id, s))
    && (forall x, k :: Leads(x, s, decode, base) && !Opened(x, b) && 0 <= k < |b| ==> b[k].id < x)
    && (forall x :: Leads(x, s, decode, base) && !Opened(x, b) ==>
         exists y :: y <= x && Leads(y, s, decode, base) && !Opened(y, b) && !Stands(y, s))
  }

  /** An instruction is sent with the greatest new block not above it, or with the last one from before. */
  ghost predicate Attached(i: Instruction, b: seq<BasicBlock>, before: seq<BasicBlock>) {
    if exists x :: x in b && x.id <= i.address then
      i.parent in b && i.parent.id <= i.address && forall x :: x in b && x.id <= i.address ==> x.id <= i.parent.id
    else before != [] && i.parent == before[|before| - 1]
  }

  /** What a function of a given address, size and section decoder adds to the blocks and sends. */
  ghost predicate Contributes(s: seq<Instruction>, b: seq<BasicBlock>, before: seq<BasicBlock>, decode: Decoder,
                              owner: RawSymbol, size: Address) {
    && Walk(s, decode, owner.value, size)
    && (forall x :: x in b ==> x.parent == owner)
    && (AscendingInstructions(s) ==> Cut(b, s, decode, owner.value) && forall i :: i in s ==> Attached(i, b, before))
  }

  // ----- the same of a sweep -----

  lemma JumpLeadsExactly(x: Address, i: Instruction, w: Swept, decode: Decoder)
    requires i.address == w.address && w.decoded == decode(w.address)
    ensures JumpLeads(x, i, decode) <==> GivesLeader(w, x)
  {
    assert Wrap(End(w)) == (i.address + decode(i.address).size) % 0x1_0000_0000_0000_0000;
  }

  lemma LeadsExactly(x: Address, s: seq<Instruction>, swept: seq<Swept>, decode: Decoder, base: Address)
    requires Reports(s, swept) && forall w :: w in swept ==> w.decoded == decode(w.address)
    ensures Leads(x, s, decode, base) <==> x in Leaders(base, swept)
  {
    LeadersElements(base, swept, x);
    if i :| i in s && JumpLeads(x, i, decode) {
      var k :| 0 <= k < |s| && s[k] == i;
      assert swept[k] in swept;
      JumpLeadsExactly(x, i, swept[k], decode);
    }
    if w :| w in swept && GivesLeader(w, x) {
      var k :| 0 <= k < |swept| && swept[k] == w;
      JumpLeadsExactly(x, s[k], w, decode);
      assert s[k] in s;
    }
  }

  lemma StandsExactly(x: Address, s: seq<Instruction>, swept: seq<Swept>)
    requires Reports(s, swept)
    ensures Stands(x, s) <==> x in Starts(swept)
  {
    if Stands(x, s) {
      var i :| i in s && i.address == x;
      var k :| 0 <= k < |s| && s[k] == i;
      assert Starts(swept)[k] == x;
    }
    if x in Starts(swept) {
      var k :| 0 <= k < |swept| && Starts(swept)[k] == x;
      assert s[k] in s;
    }
  }

  /** The prefix of the leaders that a pass opens, as a cut. */
  ghost predicate CutAt(b: seq<BasicBlock>, leaders: seq<Address>, starts: seq<Address>, p: nat) {
    && |b| == p <= |leaders| && (forall k :: 0 <= k < p ==> b[k].id == leaders[k] && leaders[k] in starts)
    && (p < |leaders| ==> leaders[p] !in starts)
  }

  lemma PrefixIsCut(b: seq<BasicBlock>, s: seq<Instruction>, swept: seq<Swept>, decode: Decoder, base: Address, p: nat)
    requires Reports(s, swept) && forall w :: w in swept ==> w.decoded == decode(w.address)
    requires CutAt(b, Leaders(base, swept), Starts(swept), p)
    ensures Cut(b, s, decode, base)
  {
    var leaders := Leaders(base, swept);
    forall x ensures Leads(x, s, decode, base) <==> x in leaders {
      LeadsExactly(x, s, swept, decode, base);
    }
    forall x ensures Stands(x, s) <==> x in Starts(swept) {
      StandsExactly(x, s, swept);
    }
    forall q | 0 <= q < p ensures Opened(leaders[q], b) {
      assert b[q].id == leaders[q];
    }
    forall x | Leads(x, s, decode, base) && !Opened(x, b)
      ensures p < |leaders| && leaders[p] <= x
    {
      var q :| 0 <= q < |leaders| && leaders[q] == x;
    }
    if p < |leaders| {
      assert leaders[p] in leaders;
      assert !Opened(leaders[p], b);
    }
  }

  lemma AttachedTo(i: Instruction, b: seq<BasicBlock>, before: seq<BasicBlock>, count: nat)
    requires count <= |b| && AscendingBlocks(b) && (before != [] || count > 0)
    requires forall q :: 0 <= q < count ==> b[q].id <= i.address
    requires forall q :: count <= q < |b| ==> i.address < b[q].id
    requires i.parent == if count > 0 then b[count - 1] else before[|before| - 1]
    ensures Attached(i, b, before)
  {
    forall x | x in b && x.id <= i.address ensures count > 0 && x.id <= b[count - 1].id {
      var q :| 0 <= q < |b| && b[q] == x;
      assert q < count;
    }
    if count > 0 {
      assert b[count - 1] in b;
    }
  }

  lemma ParentAttached(starts: seq<Address>, leaders: seq<Address>, owner: RawSymbol, before: seq<BasicBlock>, k: nat,
                       i: Instruction)
    requires Ascending(starts) && Ascending(leaders) && k < |starts|
    requires before != [] || Pointer(starts, leaders, k + 1) > 0
    requires i.address == starts[k] && i.parent == ParentOf(starts, leaders, owner, before, k)
    ensures Attached(i, OpenedBlocks(leaders, owner, Pointer(starts, leaders, |starts|)), before)
  {
    var p, all := Pointer(starts, leaders, k + 1), Pointer(starts, leaders, |starts|);
    OpenedSplit(starts, leaders, k, p, all);
    AttachedTo(i, OpenedBlocks(leaders, owner, all), before, p);
  }

  lemma SweepCuts(swept: seq<Swept>, decode: Decoder, base: Address, owner: RawSymbol, s: seq<Instruction>)
    requires Reports(s, swept) && forall w :: w in swept ==> w.decoded == decode(w.address)
    requires Ascending(Starts(swept))
    ensures
      var starts, leaders := Starts(swept), Leaders(base, swept);
      Cut(OpenedBlocks(leaders, owner, Pointer(starts, leaders, |starts|)), s, decode, base)
  {
    var starts, leaders := Starts(swept), Leaders(base, swept);
    var p := Pointer(starts, leaders, |starts|);
    OpensLongestPrefix(starts, leaders);
    PrefixIsCut(OpenedBlocks(leaders, owner, p), s, swept, decode, base, p);
  }

  lemma EmittedAttached(swept: seq<Swept>, base: Address, owner: RawSymbol, before: seq<BasicBlock>)
    requires Ascending(Starts(swept)) && !NoBlock(Starts(swept), Leaders(base, swept), before)
    ensures
      var starts, leaders := Starts(swept), Leaders(base, swept);
      forall i :: i in Emitted(swept, leaders, owner, before, |swept|) ==>
        Attached(i, OpenedBlocks(leaders, owner, Pointer(starts, leaders, |starts|)), before)
  {
    var starts, leaders := Starts(swept), Leaders(base, swept);
    var s := Emitted(swept, leaders, owner, before, |swept|);
    forall k | 0 <= k < |s|
      ensures Attached(s[k], OpenedBlocks(leaders, owner, Pointer(starts, leaders, |starts|)), before)
    {
      HasBlock(starts, leaders, before, k);
      ParentAttached(starts, leaders, owner, before, k, s[k]);
    }
  }

  lemma ReportsAscend(s: seq<Instruction>, swept: seq<Swept>)
    requires Reports(s, swept) && AscendingInstructions(s)
    ensures Ascending(Starts(swept))
  {
  }

  lemma AddSweepContributes(swept: seq<Swept>, decode: Decoder, owner: RawSymbol, before: seq<BasicBlock>,
                            size: Address, o: Outcome)
    requires swept == Sweep(ReaderAt(decode, owner.value), 0, ToInt(size))
    requires o == AddSweep(swept, owner.value, owner, before) && o.ok
    ensures before <= o.blocks && Contributes(o.instructions, o.blocks[|before|..], before, decode, owner, size)
  {
    var starts, leaders := Starts(swept), Leaders(owner.value, swept);
    var b := OpenedBlocks(leaders, owner, Pointer(starts, leaders, |starts|));
    assert o.blocks[|before|..] == b;
    EmittedReports(swept, leaders, owner, before);
    SweepIsWalk(o.instructions, decode, owner.value, size);
    if AscendingInstructions(o.instructions) {
      ReportsAscend(o.instructions, swept);
      SweepCovers(decode, owner.value, 0, ToInt(size));
      SweepCuts(swept, decode, owner.value, owner, o.instructions);
      EmittedAttached(swept, owner.value, owner, before);
    }
  }

  // ----- the table and the run -----

  /** A symbol that is swept: the bit 3 is among its flags or those of an alias. */
  predicate Flagged(r: Record) {
    3 in r.origin.flags || exists a :: a in r.aliases && 3 in a.flags
  }

  /** The next symbol that has the bit 3 itself. */
  predicate NextFunction(table: seq<Record>, n: nat, c: nat) {
    n < c < |table| && 3 in table[c].origin.flags && forall k :: n < k < c ==> 3 !in table[k].origin.flags
  }

  /** The size reaches to that symbol or, when there is none, to the end of the section, modulo 2^64. */
  ghost predicate SizeIs(table: seq<Record>, n: nat, size: Address)
    requires n < |table|
  {
    var r := table[n];
    var section := r.parent.origin;
    if exists c: nat :: NextFunction(table, n, c) then
      exists c: nat :: NextFunction(table, n, c) && size + r.origin.value == table[c].origin.value
    else
      size == (section.size - (r.origin.value - section.vma)) % 0x1_0000_0000_0000_0000
  }

  /** What symbol `n` adds, decoded with its own section; nothing if it is not flagged. */
  ghost predicate Adds(table: seq<Record>, n: nat, decode: RawSection -> Decoder, s: seq<Instruction>,
                       b: seq<BasicBlock>, before: seq<BasicBlock>)
    requires n < |table|
  {
    if Flagged(table[n]) then
      exists size: Address :: SizeIs(table, n, size) &&
        Contributes(s, b, before, decode(table[n].parent.origin), table[n].origin, size)
    else s == [] && b == []
  }

  /** What the symbols from `n` on add, one after the other. */
  ghost predicate Explained(table: seq<Record>, n: nat, decode: RawSection -> Decoder, s: seq<Instruction>,
                            b: seq<BasicBlock>, before: seq<BasicBlock>)
    requires n <= |table|
    decreases |table| - n
  {
    if n == |table| then s == [] && b == []
    else
      exists i, k :: 0 <= i <= |s| && 0 <= k <= |b| && Adds(table, n, decode, s[..i], b[..k], before)
        && Explained(table, n + 1, decode, s[i..], b[k..], before + b[..k])
  }

  lemma HasBit(s: RawSymbol)
    ensures HasFlag(s, BSF_FUNCTION) <==> 3 in s.flags
  {
    if 3 in s.flags {
      assert 3 in s.flags * BSF_FUNCTION;
    }
  }

  lemma FlaggedExactly(r: Record)
    ensures Flagged(r) <==> IsFunction(r)
  {
    HasBit(r.origin);
    forall a | a in r.aliases ensures HasFlag(a, BSF_FUNCTION) <==> 3 in a.flags {
      HasBit(a);
    }
  }

  lemma SizeExactly(table: seq<Record>, n: nat)
    requires Sorted(table) && n < |table|
    ensures SizeIs(table, n, SizeAt(table, n))
  {
    ClosestIsNextOwn(table, n);
    SizeReaches(table, n);
    var c := ClosestFunction(table, n, n);
    forall k | 0 <= k < |table| ensures OwnFunction(table[k]) <==> 3 in table[k].origin.flags {
      HasBit(table[k].origin);
    }
    if c < |table| {
      assert NextFunction(table, n, c);
    } else {
      assert forall c': nat :: !NextFunction(table, n, c');
      DistanceModulo(table[n]);
    }
  }

  lemma DistanceModulo(r: Record)
    ensures DistanceToEnd(r)
         == (r.parent.origin.size - (r.origin.value - r.parent.origin.vma)) % 0x1_0000_0000_0000_0000
  {
  }

  lemma StepAdds(table: seq<Record>, n: nat, decode: RawSection -> Decoder, before: seq<BasicBlock>, o: Outcome)
    requires Sorted(table) && n < |table| && o == StepAt(table, n, decode, before) && o.ok
    ensures before <= o.blocks && Adds(table, n, decode, o.instructions, o.blocks[|before|..], before)
  {
    FlaggedExactly(table[n]);
    SizeExactly(table, n);
    if IsFunction(table[n]) {
      var owner, size := table[n].origin, SizeAt(table, n);
      AddSweepContributes(SweptAt(table, n, decode), decode(table[n].parent.origin), owner, before, size, o);
    }
  }

  ghost predicate StepAddsSo(table: seq<Record>, n: nat, decode: RawSection -> Decoder, before: seq<BasicBlock>,
                             o: Outcome)
    requires n < |table|
  {
    o.ok ==> before <= o.blocks && Adds(table, n, decode, o.instructions, o.blocks[|before|..], before)
  }

  ghost predicate StepsAddSo(step: Stepper, table: seq<Record>, decode: RawSection -> Decoder) {
    forall n: nat, before: seq<BasicBlock> :: n < |table| ==> StepAddsSo(table, n, decode, before, step(n, before))
  }

  lemma {:induction false} StepsExplained(step: Stepper, table: seq<Record>, n: nat, decode: RawSection -> Decoder,
                                          before: seq<BasicBlock>, run: Outcome)
    requires StepsAddSo(step, table, decode) && n <= |table|
    requires run == RunSteps(step, n, |table|, before) && run.ok
    ensures before <= run.blocks && Explained(table, n, decode, run.instructions, run.blocks[|before|..], before)
    decreases |table| - n
  {
    if n < |table| {
      var first := step(n, before);
      assert StepAddsSo(table, n, decode, before, first);
      var rest := RunSteps(step, n + 1, |table|, first.blocks);
      StepsExplained(step, table, n + 1, decode, first.blocks, rest);
      OneExplained(table, n, decode, before, first, rest);
    }
  }

  lemma OneExplained(table: seq<Record>, n: nat, decode: RawSection -> Decoder, before: seq<BasicBlock>, first: Outcome,
                     rest: Outcome)
    requires n < |table| && first.ok && StepAddsSo(table, n, decode, before, first) && first.blocks <= rest.blocks
    requires Explained(table, n + 1, decode, rest.instructions, rest.blocks[|first.blocks|..], first.blocks)
    ensures before <= rest.blocks
    ensures Explained(table, n, decode, first.instructions + rest.instructions, rest.blocks[|before|..], before)
  {
    var s, b := first.instructions + rest.instructions, rest.blocks[|before|..];
    var i, k := |first.instructions|, |first.blocks| - |before|;
    assert s[..i] == first.instructions && s[i..] == rest.instructions;
    assert b[..k] == first.blocks[|before|..] && b[k..] == rest.blocks[|first.blocks|..];
    assert before + b[..k] == first.blocks;
  }

  /**
   A run over a sorted table that does not fail is explained: every flagged symbol, and no other, adds the walk
   over as many bytes as its size says, decoded with its own section, cut and attached as its jumps say.
   */
  lemma {:induction false} RunExplained(table: seq<Record>, decode: RawSection -> Decoder, before: seq<BasicBlock>)
    requires Sorted(table) && RunAll(table, decode, before).ok
    ensures var run := RunAll(table, decode, before);
      before <= run.blocks && Explained(table, 0, decode, run.instructions, run.blocks[|before|..], before)
  {
    var step := StepsOf(table, decode);
    forall n: nat, blocks: seq<BasicBlock> | n < |table|
      ensures StepAddsSo(table, n, decode, blocks, step(n, blocks))
    {
      if step(n, blocks).ok {
        StepAdds(table, n, decode, blocks, step(n, blocks));
      }
    }
    StepsExplained(step, table, 0, decode, before, RunAll(table, decode, before));
  }

  // ----- failing -----

  /** The instructions the sweep of symbol `n` finds; their parents do not matter here. */
  ghost predicate Finds(table: seq<Record>, n: nat, decode: RawSection -> Decoder, t: seq<Instruction>)
    requires n < |table|
  {
    exists size: Address ::
      SizeIs(table, n, size) && Walk(t, decode(table[n].parent.origin), table[n].origin.value, size)
  }

  /** One of the leaders of found instructions stands before the function. */
  ghost predicate LeadsBefore(t: seq<Instruction>, decode: Decoder, base: Address) {
    exists x: Address :: Leads(x, t, decode, base) && x < base
  }

  /** Symbol `f` is the first that is flagged and finds anything, and it has a leader before its own address. */
  ghost predicate FailsAt(table: seq<Record>, f: nat, decode: RawSection -> Decoder)
    requires f < |table|
  {
    && Flagged(table[f])
    && (exists t :: t != [] && Finds(table, f, decode, t) &&
         LeadsBefore(t, decode(table[f].parent.origin), table[f].origin.value))
    && forall k :: 0 <= k < f && Flagged(table[k]) ==> Finds(table, k, decode, [])
  }

  /** Instructions with the addresses and texts of a sweep, in some block. */
  function Sent(swept: seq<Swept>, block: BasicBlock): (s: seq<Instruction>)
    ensures Reports(s, swept)
  {
    seq(|swept|, k requires 0 <= k < |swept| => Instruction(block, swept[k].decoded.text, swept[k].address))
  }

  lemma WalkReports(t: seq<Instruction>, decode: Decoder, base: Address, size: Address, block: BasicBlock)
    requires Walk(t, decode, base, size)
    ensures Reports(t, Sweep(ReaderAt(decode, base), 0, ToInt(size)))
  {
    var swept := Sweep(ReaderAt(decode, base), 0, ToInt(size));
    SweepIsWalk(Sent(swept, block), decode, base, size);
    if size % 0x1_0000_0000 < 0x8000_0000 {
      WalksUnique(t, Sent(swept, block), decode, base, 0, size % 0x1_0000_0000);
    }
  }

  lemma NextUnique(table: seq<Record>, n: nat, c: nat, d: nat)
    requires NextFunction(table, n, c) && NextFunction(table, n, d)
    ensures c == d
  {
  }

  lemma SizeUnique(table: seq<Record>, n: nat, size: Address, size': Address)
    requires n < |table| && SizeIs(table, n, size) && SizeIs(table, n, size')
    ensures size == size'
  {
    forall c: nat, d: nat | NextFunction(table, n, c) && NextFunction(table, n, d) ensures c == d {
      NextUnique(table, n, c, d);
    }
  }

  lemma FindsExactly(table: seq<Record>, n: nat, decode: RawSection -> Decoder, t: seq<Instruction>)
    requires Sorted(table) && n < |table|
    ensures Finds(table, n, decode, t) <==> Reports(t, SweptAt(table, n, decode))
  {
    var r, size := table[n], SizeAt(table, n);
    var reader := decode(r.parent.origin);
    SizeExactly(table, n);
    if Reports(t, SweptAt(table, n, decode)) {
      SweepIsWalk(t, reader, r.origin.value, size);
    }
    if size': Address :| SizeIs(table, n, size') && Walk(t, reader, r.origin.value, size') {
      SizeUnique(table, n, size, size');
      WalkReports(t, reader, r.origin.value, size, BasicBlock(0, r.origin));
    }
  }

  lemma LeastLeader(leaders: seq<Address>, x: Address)
    requires Ascending(leaders) && x in leaders
    ensures leaders[0] <= x
  {
    var q :| 0 <= q < |leaders| && leaders[q] == x;
  }

  lemma LeadsBeforeExactly(t: seq<Instruction>, swept: seq<Swept>, decode: Decoder, base: Address)
    requires Reports(t, swept) && forall w :: w in swept ==> w.decoded == decode(w.address)
    ensures LeadsBefore(t, decode, base) <==> JumpsBefore(swept, base)
  {
    FirstLeader(swept, base);
    var least := Leaders(base, swept)[0];
    LeadsExactly(least, t, swept, decode, base);
    if LeadsBefore(t, decode, base) {
      var x: Address :| Leads(x, t, decode, base) && x < base;
      LeadsExactly(x, t, swept, decode, base);
      LeastLeader(Leaders(base, swept), x);
    }
  }

  lemma FailsAtExactly(table: seq<Record>, f: nat, decode: RawSection -> Decoder)
    requires Sorted(table) && f < |table|
    ensures FailsAt(table, f, decode) <==> FirstJumpsBefore(table, f, decode)
  {
    var r, swept := table[f], SweptAt(table, f, decode);
    var reader, found := decode(r.parent.origin), Sent(swept, BasicBlock(0, r.origin));
    SweepCovers(reader, r.origin.value, 0, MaxOffset(table, f));
    FlaggedExactly(r);
    FindsExactly(table, f, decode, found);
    LeadsBeforeExactly(found, swept, reader, r.origin.value);
    forall t | Finds(table, f, decode, t) ensures |t| == |swept| {
      FindsExactly(table, f, decode, t);
    }
    forall t | Finds(table, f, decode, t) && LeadsBefore(t, reader, r.origin.value)
      ensures JumpsBefore(swept, r.origin.value)
    {
      FindsExactly(table, f, decode, t);
      LeadsBeforeExactly(t, swept, reader, r.origin.value);
    }
    forall k | 0 <= k < f
      ensures (Flagged(table[k]) ==> Finds(table, k, decode, [])) <==> !Sweeps(table, k, decode)
    {
      FlaggedExactly(table[k]);
      FindsExactly(table, k, decode, []);
    }
  }

  /** A run over a sorted table fails exactly when no block came before and some symbol fails so. */
  lemma {:induction false} RunFailsSo(table: seq<Record>, decode: RawSection -> Decoder, before: seq<BasicBlock>)
    requires Sorted(table)
    ensures !RunAll(table, decode, before).ok <==>
      before == [] && exists f :: 0 <= f < |table| && FailsAt(table, f, decode)
  {
    RunFailsExactly(table, decode, before);
    forall f | 0 <= f < |table| ensures FailsAt(table, f, decode) <==> FirstJumpsBefore(table, f, decode) {
      FailsAtExactly(table, f, decode);
    }
  }

  /** All this of the outcome of a run, given what the listing held before. */
  ghost predicate Accounted(table: seq<Record>, decode: RawSection -> Decoder, before: seq<BasicBlock>,
                            sent: seq<Instruction>, ok: bool, after: seq<BasicBlock>, all: seq<Instruction>) {
    && (ok <==> before != [] || !exists f :: 0 <= f < |table| && FailsAt(table, f, decode))
    && before <= after && sent <= all
    && if ok then Explained(table, 0, decode, all[|sent|..], after[|before|..], before)
       else after == [] && all == sent
  }

  lemma RunAccounted(table: seq<Record>, decode: RawSection -> Decoder, before: seq<BasicBlock>,
                     sent: seq<Instruction>, run: Outcome)
    requires Sorted(table) && run == RunAll(table, decode, before)
    ensures Accounted(table, decode, before, sent, run.ok, run.blocks, sent + run.instructions)
  {
    RunFailsSo(table, decode, before);
    assert (sent + run.instructions)[|sent|..] == run.instructions;
    if run.ok {
      RunExplained(table, decode, before);
    } else {
      RunFailsExactly(table, decode, before);
    }
  }

  /** The outcome of the whole run over a table, after what the listing held before. */
  ghost predicate Ran(table: seq<Record>, decode: RawSection -> Decoder, before: seq<BasicBlock>,
                      sent: seq<Instruction>, ok: bool, after: seq<BasicBlock>, all: seq<Instruction>) {
    && Outcome(after, all, ok) == Sending(RunAll(table, decode, before), sent)
    && (before == [] && sent == [] ==> FreshOutcome(table, decode, Outcome(after, all, ok)))
    && (Sorted(table) ==> Accounted(table, decode, before, sent, ok, after, all))
  }

  /** The same outcome behind what was sent before. */
  function Sending(run: Outcome, sent: seq<Instruction>): Outcome {
    Outcome(run.blocks, sent + run.instructions, run.ok)
  }

  lemma RunsSo(table: seq<Record>, decode: RawSection -> Decoder, before: seq<BasicBlock>, sent: seq<Instruction>,
               run: Outcome)
    requires run == RunAll(table, decode, before)
    ensures Ran(table, decode, before, sent, run.ok, run.blocks, sent + run.instructions)
  {
    FreshListing(table, decode, before, sent, run);
    if Sorted(table) {
      RunAccounted(table, decode, before, sent, run);
    }
  }
}
