/** Runs: steps in a row, each adding blocks and instructions, and what they keep over any number of steps. */
module Runs {
  import opened Wrappers
  import opened OrderedSet
  import opened Disassembler

  /** All blocks after the run, the instructions it emitted, and whether no assertion failed. */
  datatype Outcome = Outcome(blocks: seq<BasicBlock>, instructions: seq<Instruction>, ok: bool)

  type Stepper = (nat, seq<BasicBlock>) -> Outcome

  /** Steps `n` to `end` in a row; the first that fails is the last. */
  function RunSteps(step: Stepper, n: nat, end: nat, blocks: seq<BasicBlock>): Outcome
    decreases end - n
  {
    if n >= end then Outcome(blocks, [], true)
    else
      var first := step(n, blocks);
      if !first.ok then first
      else
        var rest := RunSteps(step, n + 1, end, first.blocks);
        Outcome(rest.blocks, first.instructions + rest.instructions, rest.ok)
  }

  ghost predicate AscendingInstructions(s: seq<Instruction>) {
    forall i, j :: 0 <= i < j < |s| ==> s[i].address < s[j].address
  }

  ghost predicate AscendingBlocks(s: seq<BasicBlock>) {
    forall i, j :: 0 <= i < j < |s| ==> s[i].id < s[j].id
  }

  // ----- steps that stay inside disjoint ranges -----

  /** The range a step stays in; an empty one for a step that does nothing. */
  datatype Range = Range(low: nat, high: nat)

  type Ranges = nat -> Range

  predicate Within(a: nat, r: Range) {
    r.low <= a < r.high
  }

  /** A step from `blocks` only adds, in ascending order and inside its range. */
  ghost predicate Inside(o: Outcome, blocks: seq<BasicBlock>, r: Range) {
    && blocks <= o.blocks && AscendingBlocks(o.blocks[|blocks|..]) && AscendingInstructions(o.instructions)
    && (forall b :: b in o.blocks[|blocks|..] ==> Within(b.id, r))
    && (forall i :: i in o.instructions ==> Within(i.address, r))
  }

  ghost predicate StepsInside(step: Stepper, ranges: Ranges) {
    forall n: nat, blocks: seq<BasicBlock> :: Inside(step(n, blocks), blocks, ranges(n))
  }

  /** Ranges that are not empty stand one behind the other. */
  predicate Apart(r: Range, t: Range) {
    r.low < r.high && t.low < t.high ==> r.high <= t.low
  }

  ghost predicate RangesApart(ranges: Ranges, n: nat, end: nat) {
    forall a: nat, b: nat :: n <= a < b < end ==> Apart(ranges(a), ranges(b))
  }

  /** All blocks stand before a range. */
  ghost predicate StandBefore(blocks: seq<BasicBlock>, r: Range) {
    forall b :: b in blocks && r.low < r.high ==> b.id < r.low
  }

  ghost predicate BlocksBefore(blocks: seq<BasicBlock>, ranges: Ranges, n: nat, end: nat) {
    forall m: nat :: n <= m < end ==> StandBefore(blocks, ranges(m))
  }

  /** What is added by the steps from `n` on stands in one of their ranges. */
  ghost predicate WithinSome(a: nat, ranges: Ranges, n: nat, end: nat) {
    exists m: nat :: n <= m < end && Within(a, ranges(m))
  }

  lemma StepKeepsBefore(o: Outcome, blocks: seq<BasicBlock>, ranges: Ranges, n: nat, end: nat)
    requires n < end && Inside(o, blocks, ranges(n))
    requires RangesApart(ranges, n, end) && BlocksBefore(blocks, ranges, n, end)
    ensures BlocksBefore(o.blocks, ranges, n + 1, end)
    ensures AscendingBlocks(blocks) ==> AscendingBlocks(o.blocks)
  {
    assert o.blocks == blocks + o.blocks[|blocks|..];
    assert StandBefore(blocks, ranges(n));
    forall m: nat | n + 1 <= m < end ensures StandBefore(o.blocks, ranges(m)) {
      assert StandBefore(blocks, ranges(m));
      assert Apart(ranges(n), ranges(m));
    }
  }

  lemma JoinInstructions(s: seq<Instruction>, t: seq<Instruction>, ranges: Ranges, n: nat, end: nat)
    requires n < end && RangesApart(ranges, n, end) && AscendingInstructions(s) && AscendingInstructions(t)
    requires forall i :: i in s ==> Within(i.address, ranges(n))
    requires forall i :: i in t ==> WithinSome(i.address, ranges, n + 1, end)
    ensures AscendingInstructions(s + t)
  {
    forall i, j | i in s && j in t ensures i.address < j.address {
      var m: nat :| n + 1 <= m < end && Within(j.address, ranges(m));
      assert Apart(ranges(n), ranges(m));
    }
    forall i, j | 0 <= i < j < |s + t| ensures (s + t)[i].address < (s + t)[j].address {
      assert i < |s| <= j ==> s[i] in s && t[j - |s|] in t;
    }
  }

  lemma WithinSomeLater(a: nat, ranges: Ranges, n: nat, end: nat)
    ensures n < end && Within(a, ranges(n)) ==> WithinSome(a, ranges, n, end)
    ensures WithinSome(a, ranges, n + 1, end) ==> WithinSome(a, ranges, n, end)
  {
  }

  /** What is added by a run: the old blocks stay, and everything else stands in the ranges of its steps. */
  ghost predicate Added(o: Outcome, blocks: seq<BasicBlock>, ranges: Ranges, n: nat, end: nat) {
    && blocks <= o.blocks
    && (forall b :: b in o.blocks[|blocks|..] ==> WithinSome(b.id, ranges, n, end))
    && (forall i :: i in o.instructions ==> WithinSome(i.address, ranges, n, end))
  }

  lemma AddedStep(first: Outcome, rest: Outcome, blocks: seq<BasicBlock>, ranges: Ranges, n: nat, end: nat)
    requires n < end && Inside(first, blocks, ranges(n)) && Added(rest, first.blocks, ranges, n + 1, end)
    ensures Added(Outcome(rest.blocks, first.instructions + rest.instructions, rest.ok), blocks, ranges, n, end)
  {
    var added := first.blocks[|blocks|..];
    assert rest.blocks[|blocks|..] == added + rest.blocks[|first.blocks|..];
    forall a: nat
      ensures Within(a, ranges(n)) || WithinSome(a, ranges, n + 1, end) ==> WithinSome(a, ranges, n, end)
    {
      WithinSomeLater(a, ranges, n, end);
    }
  }

  lemma AddedLast(first: Outcome, blocks: seq<BasicBlock>, ranges: Ranges, n: nat, end: nat)
    requires n < end && Inside(first, blocks, ranges(n))
    ensures Added(first, blocks, ranges, n, end)
  {
    forall a: nat ensures Within(a, ranges(n)) ==> WithinSome(a, ranges, n, end) {
      WithinSomeLater(a, ranges, n, end);
    }
  }

  lemma {:induction false} RunAdds(step: Stepper, ranges: Ranges, n: nat, end: nat, blocks: seq<BasicBlock>)
    requires StepsInside(step, ranges)
    ensures Added(RunSteps(step, n, end, blocks), blocks, ranges, n, end)
    decreases end - n
  {
    if n < end {
      var first := step(n, blocks);
      assert Inside(first, blocks, ranges(n));
      if first.ok {
        RunAdds(step, ranges, n + 1, end, first.blocks);
        AddedStep(first, RunSteps(step, n + 1, end, first.blocks), blocks, ranges, n, end);
      } else {
        AddedLast(first, blocks, ranges, n, end);
      }
    }
  }

  /** Over ranges that stand one behind the other, blocks and instructions ascend through the whole run. */
  lemma {:induction false} RunAscends(step: Stepper, ranges: Ranges, n: nat, end: nat, blocks: seq<BasicBlock>)
    requires StepsInside(step, ranges) && RangesApart(ranges, n, end)
    requires AscendingBlocks(blocks) && BlocksBefore(blocks, ranges, n, end)
    ensures var run := RunSteps(step, n, end, blocks);
      AscendingBlocks(run.blocks) && AscendingInstructions(run.instructions)
    decreases end - n
  {
    if n < end {
      var first := step(n, blocks);
      assert Inside(first, blocks, ranges(n));
      StepKeepsBefore(first, blocks, ranges, n, end);
      if first.ok {
        RunAscends(step, ranges, n + 1, end, first.blocks);
        RunAdds(step, ranges, n + 1, end, first.blocks);
        JoinInstructions(first.instructions, RunSteps(step, n + 1, end, first.blocks).instructions, ranges, n, end);
      }
    }
  }

  // ----- parents -----

  /** The parent of an instruction is the block with the greatest id not above its address. */
  ghost predicate ParentGreatest(i: Instruction, blocks: seq<BasicBlock>) {
    && i.parent in blocks && i.parent.id <= i.address
    && forall b :: b in blocks && b.id <= i.address ==> b.id <= i.parent.id
  }

  ghost predicate ParentsGreatest(s: seq<Instruction>, blocks: seq<BasicBlock>) {
    forall i :: i in s ==> ParentGreatest(i, blocks)
  }

  /** From ascending blocks that all stand before its range, a step gives its instructions the right parents. */
  ghost predicate StepsParent(step: Stepper, ranges: Ranges) {
    forall n: nat, blocks: seq<BasicBlock> ::
      AscendingBlocks(blocks) && StandBefore(blocks, ranges(n)) ==>
        ParentsGreatest(step(n, blocks).instructions, step(n, blocks).blocks)
  }

  lemma ParentStays(i: Instruction, first: seq<BasicBlock>, last: seq<BasicBlock>, ranges: Ranges, n: nat, end: nat)
    requires n < end && ParentGreatest(i, first) && Within(i.address, ranges(n)) && first <= last
    requires forall b :: b in last[|first|..] ==> WithinSome(b.id, ranges, n + 1, end)
    requires RangesApart(ranges, n, end)
    ensures ParentGreatest(i, last)
  {
    assert last == first + last[|first|..];
    forall b | b in last[|first|..] ensures i.address < b.id {
      var m: nat :| n + 1 <= m < end && Within(b.id, ranges(m));
      assert Apart(ranges(n), ranges(m));
    }
  }

  lemma {:induction false} RunParents(step: Stepper, ranges: Ranges, n: nat, end: nat, blocks: seq<BasicBlock>)
    requires StepsInside(step, ranges) && StepsParent(step, ranges) && RangesApart(ranges, n, end)
    requires AscendingBlocks(blocks) && BlocksBefore(blocks, ranges, n, end)
    ensures var run := RunSteps(step, n, end, blocks);
      ParentsGreatest(run.instructions, run.blocks)
    decreases end - n
  {
    if n < end {
      var first := step(n, blocks);
      assert Inside(first, blocks, ranges(n)) && StandBefore(blocks, ranges(n));
      if first.ok {
        var rest := RunSteps(step, n + 1, end, first.blocks);
        StepKeepsBefore(first, blocks, ranges, n, end);
        RunParents(step, ranges, n + 1, end, first.blocks);
        RunAdds(step, ranges, n + 1, end, first.blocks);
        forall i | i in first.instructions ensures ParentGreatest(i, rest.blocks) {
          ParentStays(i, first.blocks, rest.blocks, ranges, n, end);
        }
      }
    }
  }

  // ----- failing -----

  /** Which steps do anything, and which of these fail when there is no block yet. */
  ghost predicate StepFails(o: Outcome, blocks: seq<BasicBlock>, sweeps: bool, fails: bool) {
    && (!sweeps ==> o == Outcome(blocks, [], true))
    && (sweeps ==> o.ok == (blocks != [] || !fails))
    && (sweeps && o.ok ==> o.blocks != [])
    && (!o.ok ==> o == Outcome(blocks, [], false))
  }

  ghost predicate StepsFail(step: Stepper, sweeps: nat -> bool, fails: nat -> bool) {
    forall n: nat, blocks: seq<BasicBlock> :: StepFails(step(n, blocks), blocks, sweeps(n), fails(n))
  }

  /** Step `f` is the first that does anything, and it fails. */
  ghost predicate FirstFails(f: nat, sweeps: nat -> bool, fails: nat -> bool, n: nat, end: nat) {
    n <= f < end && sweeps(f) && fails(f) && forall k: nat :: n <= k < f ==> !sweeps(k)
  }

  ghost predicate SomeFirstFails(sweeps: nat -> bool, fails: nat -> bool, n: nat, end: nat) {
    exists f: nat :: FirstFails(f, sweeps, fails, n, end)
  }

  lemma FirstFailsLater(sweeps: nat -> bool, fails: nat -> bool, n: nat, end: nat)
    requires n < end
    ensures SomeFirstFails(sweeps, fails, n, end) <==>
      if sweeps(n) then fails(n) else SomeFirstFails(sweeps, fails, n + 1, end)
  {
    if SomeFirstFails(sweeps, fails, n, end) && !sweeps(n) {
      var f: nat :| FirstFails(f, sweeps, fails, n, end);
      assert FirstFails(f, sweeps, fails, n + 1, end);
    }
    if sweeps(n) && fails(n) {
      assert FirstFails(n, sweeps, fails, n, end);
    } else if !sweeps(n) && SomeFirstFails(sweeps, fails, n + 1, end) {
      var f: nat :| FirstFails(f, sweeps, fails, n + 1, end);
      assert FirstFails(f, sweeps, fails, n, end);
    }
  }

  /**
   A run fails exactly when it starts without a block and the first step that does anything fails; it emits
   nothing then.
   */
  lemma {:induction false} RunFails(step: Stepper, sweeps: nat -> bool, fails: nat -> bool, n: nat, end: nat,
                                    blocks: seq<BasicBlock>)
    requires StepsFail(step, sweeps, fails)
    ensures var run := RunSteps(step, n, end, blocks);
      && (!run.ok <==> blocks == [] && SomeFirstFails(sweeps, fails, n, end))
      && (!run.ok ==> run == Outcome([], [], false))
    decreases end - n
  {
    if n < end {
      var first := step(n, blocks);
      assert StepFails(first, blocks, sweeps(n), fails(n));
      FirstFailsLater(sweeps, fails, n, end);
      if first.ok {
        RunFails(step, sweeps, fails, n + 1, end, first.blocks);
      }
    }
  }

  // ----- the emitted addresses, step by step -----

  type Parts = nat -> seq<Address>

  function Concatenated(parts: Parts, n: nat, end: nat): seq<Address>
    decreases end - n
  {
    if n >= end then [] else parts(n) + Concatenated(parts, n + 1, end)
  }

  ghost predicate Below(s: seq<Address>, t: seq<Address>) {
    forall x, y :: x in s && y in t ==> x < y
  }

  lemma JoinAscends(s: seq<Address>, t: seq<Address>)
    ensures Ascending(s + t) <==> Ascending(s) && Ascending(t) && Below(s, t)
  {
    if Ascending(s + t) {
      assert forall i :: 0 <= i < |s| ==> s[i] == (s + t)[i];
      assert forall i :: 0 <= i < |t| ==> t[i] == (s + t)[|s| + i];
      forall x, y | x in s && y in t ensures x < y {
        var i :| 0 <= i < |s| && s[i] == x;
        var j :| 0 <= j < |t| && t[j] == y;
        assert (s + t)[i] < (s + t)[|s| + j];
      }
    }
    if Ascending(s) && Ascending(t) && Below(s, t) {
      forall i, j | 0 <= i < j < |s + t| ensures (s + t)[i] < (s + t)[j] {
        assert i < |s| <= j ==> s[i] in s && t[j - |s|] in t;
      }
    }
  }

  ghost predicate InSome(parts: Parts, n: nat, end: nat, x: Address) {
    exists k: nat :: n <= k < end && x in parts(k)
  }

  lemma InSomeStep(parts: Parts, n: nat, end: nat, x: Address)
    requires n < end
    ensures InSome(parts, n, end, x) <==> x in parts(n) || InSome(parts, n + 1, end, x)
  {
    if InSome(parts, n, end, x) && x !in parts(n) {
      var k: nat :| n <= k < end && x in parts(k);
      assert n + 1 <= k < end;
    }
  }

  lemma {:induction false} ConcatenatedMembers(parts: Parts, n: nat, end: nat, x: Address)
    ensures x in Concatenated(parts, n, end) <==> InSome(parts, n, end, x)
    decreases end - n
  {
    if n < end {
      ConcatenatedMembers(parts, n + 1, end, x);
      InSomeStep(parts, n, end, x);
    }
  }

  lemma BelowConcatenated(s: seq<Address>, parts: Parts, n: nat, end: nat)
    ensures Below(s, Concatenated(parts, n, end)) <==> forall k :: n <= k < end ==> Below(s, parts(k))
  {
    if Below(s, Concatenated(parts, n, end)) {
      forall k, x, y | n <= k < end && x in s && y in parts(k) ensures x < y {
        ConcatenatedMembers(parts, n, end, y);
      }
    }
    if forall k :: n <= k < end ==> Below(s, parts(k)) {
      forall x, y | x in s && y in Concatenated(parts, n, end) ensures x < y {
        ConcatenatedMembers(parts, n, end, y);
      }
    }
  }

  ghost predicate AllAscend(parts: Parts, n: nat, end: nat) {
    forall k :: n <= k < end ==> Ascending(parts(k))
  }

  ghost predicate AllBelow(parts: Parts, n: nat, end: nat) {
    forall a, b :: n <= a < b < end ==> Below(parts(a), parts(b))
  }

  lemma {:induction false} ConcatenatedAscends(parts: Parts, n: nat, end: nat)
    ensures Ascending(Concatenated(parts, n, end)) <==> AllAscend(parts, n, end) && AllBelow(parts, n, end)
    decreases end - n
  {
    if n < end {
      ConcatenatedAscends(parts, n + 1, end);
      JoinAscends(parts(n), Concatenated(parts, n + 1, end));
      BelowConcatenated(parts(n), parts, n + 1, end);
    }
  }

  function AddressesOf(s: seq<Instruction>): (r: seq<Address>)
    ensures |r| == |s| && forall i :: 0 <= i < |r| ==> r[i] == s[i].address
  {
    seq(|s|, i requires 0 <= i < |s| => s[i].address)
  }

  ghost predicate EmitsParts(step: Stepper, parts: Parts) {
    forall n: nat, blocks: seq<BasicBlock> ::
      step(n, blocks).ok ==> AddressesOf(step(n, blocks).instructions) == parts(n)
  }

  lemma {:induction false} RunEmitsParts(step: Stepper, parts: Parts, n: nat, end: nat, blocks: seq<BasicBlock>)
    requires EmitsParts(step, parts) && RunSteps(step, n, end, blocks).ok
    ensures AddressesOf(RunSteps(step, n, end, blocks).instructions) == Concatenated(parts, n, end)
    decreases end - n
  {
    if n < end {
      var first := step(n, blocks);
      RunEmitsParts(step, parts, n + 1, end, first.blocks);
      var rest := RunSteps(step, n + 1, end, first.blocks).instructions;
      assert AddressesOf(first.instructions + rest) == AddressesOf(first.instructions) + AddressesOf(rest);
    }
  }

  // ----- the ids of the blocks, step by step -----

  function IdsOf(blocks: seq<BasicBlock>): (r: seq<Address>)
    ensures |r| == |blocks| && forall i :: 0 <= i < |r| ==> r[i] == blocks[i].id
  {
    seq(|blocks|, i requires 0 <= i < |blocks| => blocks[i].id)
  }

  ghost predicate OpensParts(step: Stepper, parts: Parts) {
    forall n: nat, blocks: seq<BasicBlock> ::
      step(n, blocks).ok ==> IdsOf(step(n, blocks).blocks) == IdsOf(blocks) + parts(n)
  }

  lemma {:induction false} RunOpensParts(step: Stepper, parts: Parts, n: nat, end: nat, blocks: seq<BasicBlock>)
    requires OpensParts(step, parts) && RunSteps(step, n, end, blocks).ok
    ensures IdsOf(RunSteps(step, n, end, blocks).blocks) == IdsOf(blocks) + Concatenated(parts, n, end)
    decreases end - n
  {
    if n < end {
      var first := step(n, blocks);
      RunOpensParts(step, parts, n + 1, end, first.blocks);
      JoinAssociative(IdsOf(blocks), parts(n), Concatenated(parts, n + 1, end));
    }
  }

  lemma JoinAssociative(a: seq<Address>, b: seq<Address>, c: seq<Address>)
    ensures (a + b) + c == a + (b + c)
  {
  }
}
