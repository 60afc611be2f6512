/** What the sweep and the partition of one function guarantee, in terms of its decoded instructions. */
module FunctionBlocks {
  import opened Wrappers
  import opened OrderedSet
  import opened BasicBlocks
  import opened Symbols
  import opened Disassembler

  // ----- the sweep tiles the function -----

  /** Consecutive decoded instructions inside `[low, high)`. */
  ghost predicate Tiles(swept: seq<Swept>, low: nat, high: nat) {
    && (swept != [] ==> swept[0].address == low)
    && (forall i :: 0 <= i < |swept| ==> low <= swept[i].address < high && swept[i].decoded.size > 0)
    && (forall i :: 0 <= i < |swept| - 1 ==> swept[i + 1].address == End(swept[i]))
  }

  /** The offsets from the function's address at which the sweep decodes an instruction. */
  function Offsets(read: Reader, offset: nat, max: int): seq<nat>
    decreases max - offset
  {
    var size := read(offset).decoded.size;
    if size > 0 && offset < max then [offset] + Offsets(read, offset + size, max) else []
  }

  /** Consecutive offsets from `first` below `max`, at which the swept instructions stand, modulo 2 to the power 64. */
  ghost predicate LaidOut(swept: seq<Swept>, offsets: seq<nat>, base: Address, first: nat, max: int) {
    && |offsets| == |swept| && (swept != [] ==> offsets[0] == first)
    && (forall i :: 0 <= i < |swept| ==> StandsAt(swept[i], base + offsets[i]) && first <= offsets[i] < max)
    && (forall i :: 0 <= i < |swept| - 1 ==> offsets[i + 1] == offsets[i] + swept[i].decoded.size)
  }

  predicate StandsAt(s: Swept, place: nat) {
    s.address == Wrap(place) && s.decoded.size > 0
  }

  lemma LaidOutStep(s: Swept, swept: seq<Swept>, offsets: seq<nat>, base: Address, first: nat, max: int)
    requires StandsAt(s, base + first) && first < max && LaidOut(swept, offsets, base, first + s.decoded.size, max)
    ensures LaidOut([s] + swept, [first] + offsets, base, first, max)
  {
  }

  /** The instructions follow each other without gaps from the function's address. */
  lemma {:induction false} SweepTiles(decode: Decoder, base: Address, offset: nat, max: int)
    ensures LaidOut(Sweep(ReaderAt(decode, base), offset, max), Offsets(ReaderAt(decode, base), offset, max),
                    base, offset, max)
    decreases max - offset
  {
    var read := ReaderAt(decode, base);
    var s := read(offset);
    assert s == Swept(Wrap(base + offset), decode(Wrap(base + offset)));
    if s.decoded.size > 0 && offset < max {
      var next := offset + s.decoded.size;
      SweepTiles(decode, base, next, max);
      LaidOutStep(s, Sweep(read, next, max), Offsets(read, next, max), base, offset, max);
    }
  }

  lemma StandsInRange(swept: seq<Swept>, offsets: seq<nat>, base: Address, first: nat, max: int, i: nat)
    requires LaidOut(swept, offsets, base, first, max) && base + max <= TWO_TO_THE_64 && i < |swept|
    ensures swept[i].address == base + offsets[i] && first <= offsets[i] < max && swept[i].decoded.size > 0
  {
    assert StandsAt(swept[i], base + offsets[i]);
  }

  /** In a range that does not wrap around the address space they tile its addresses. */
  lemma FittingTiles(swept: seq<Swept>, offsets: seq<nat>, base: Address, first: nat, max: int)
    requires LaidOut(swept, offsets, base, first, max) && base + max <= TWO_TO_THE_64
    ensures Tiles(swept, base + first, if max < 0 then 0 else base + max)
  {
    forall i | 0 <= i < |swept|
      ensures swept[i].address == base + offsets[i] && first <= offsets[i] < max && swept[i].decoded.size > 0
    {
      StandsInRange(swept, offsets, base, first, max, i);
    }
  }

  /** The sweep only ends at the end of the range or where decoding fails, and it records what was decoded. */
  lemma {:induction false} SweepCovers(decode: Decoder, base: Address, offset: nat, max: int)
    ensures
      var read := ReaderAt(decode, base);
      var swept, offsets := Sweep(read, offset, max), Offsets(read, offset, max);
      && |offsets| == |swept| && (forall s :: s in swept ==> s.decoded == decode(s.address))
      && var end := if swept == [] then offset else offsets[|offsets| - 1] + swept[|swept| - 1].decoded.size;
         end >= max || decode(Wrap(base + end)).size <= 0
    decreases max - offset
  {
    var read := ReaderAt(decode, base);
    var s := read(offset);
    assert s == Swept(Wrap(base + offset), decode(Wrap(base + offset)));
    if s.decoded.size > 0 && offset < max {
      var next := offset + s.decoded.size;
      SweepCovers(decode, base, next, max);
      assert Sweep(read, offset, max) == [s] + Sweep(read, next, max);
      assert Offsets(read, offset, max) == [offset] + Offsets(read, next, max);
    }
  }

  lemma {:induction false} OffsetsAscend(swept: seq<Swept>, offsets: seq<nat>, base: Address, first: nat, max: int,
                                         i: nat, j: nat)
    requires LaidOut(swept, offsets, base, first, max) && i < j < |swept|
    ensures offsets[i] < offsets[j]
  {
    assert StandsAt(swept[j - 1], base + offsets[j - 1]);
    if i < j - 1 {
      OffsetsAscend(swept, offsets, base, first, max, i, j - 1);
    }
  }

  lemma StandsUnwrapped(swept: seq<Swept>, offsets: seq<nat>, base: Address, max: int, i: nat)
    requires LaidOut(swept, offsets, base, 0, max) && i < |swept| && base + offsets[|swept| - 1] < TWO_TO_THE_64
    ensures swept[i].address == base + offsets[i]
  {
    assert StandsAt(swept[i], base + offsets[i]);
    if i < |swept| - 1 {
      OffsetsAscend(swept, offsets, base, 0, max, i, |swept| - 1);
    }
  }

  lemma AscendsUnwrapped(swept: seq<Swept>, offsets: seq<nat>, base: Address, max: int, i: nat, j: nat)
    requires LaidOut(swept, offsets, base, 0, max) && i < j < |swept| && base + offsets[|swept| - 1] < TWO_TO_THE_64
    ensures swept[i].address < swept[j].address
  {
    StandsUnwrapped(swept, offsets, base, max, i);
    StandsUnwrapped(swept, offsets, base, max, j);
    OffsetsAscend(swept, offsets, base, 0, max, i, j);
  }

  lemma WrappedFalls(swept: seq<Swept>, offsets: seq<nat>, base: Address, max: int)
    requires LaidOut(swept, offsets, base, 0, max) && swept != [] && max <= TWO_TO_THE_64
    requires base + offsets[|swept| - 1] >= TWO_TO_THE_64
    ensures |swept| > 1 && swept[|swept| - 1].address < swept[0].address
  {
    var last := |swept| - 1;
    assert StandsAt(swept[0], base + offsets[0]) && StandsAt(swept[last], base + offsets[last]);
    assert swept[last].address == base + offsets[last] - TWO_TO_THE_64;
  }

  /** The addresses of a sweep ascend exactly when its last instruction does not lie beyond the address space. */
  lemma AscendsUnlessWrapped(swept: seq<Swept>, offsets: seq<nat>, base: Address, max: int)
    requires LaidOut(swept, offsets, base, 0, max) && swept != [] && max <= TWO_TO_THE_64
    ensures Ascending(Starts(swept)) <==> base + offsets[|swept| - 1] < TWO_TO_THE_64
  {
    var starts := Starts(swept);
    if base + offsets[|swept| - 1] < TWO_TO_THE_64 {
      forall i, j | 0 <= i < j < |starts| ensures starts[i] < starts[j] {
        AscendsUnwrapped(swept, offsets, base, max, i, j);
      }
    } else {
      WrappedFalls(swept, offsets, base, max);
      assert starts[|starts| - 1] < starts[0];
    }
  }

  lemma {:induction false} TilesAscending(swept: seq<Swept>, low: nat, high: nat, i: nat, j: nat)
    requires Tiles(swept, low, high) && i < j < |swept|
    ensures End(swept[i]) <= swept[j].address
  {
    if i < j - 1 {
      TilesAscending(swept, low, high, i, j - 1);
    }
  }

  lemma StartsAscending(swept: seq<Swept>, low: nat, high: nat)
    requires Tiles(swept, low, high)
    ensures Ascending(Starts(swept))
  {
    forall i, j | 0 <= i < j < |swept| ensures swept[i].address < swept[j].address {
      TilesAscending(swept, low, high, i, j);
    }
  }

  // ----- leaders, in terms of jump targets -----

  /**
   The fall-through of a jump at the very end may wrap around the top of the address space; it must not
   come back to a place up to a bound that is not an instruction start.
   */
  ghost predicate LastFallsThroughUpTo(swept: seq<Swept>, a: Address)
    requires swept != []
  {
    var last := swept[|swept| - 1];
    IsJump(last) && Wrap(End(last)) <= a ==> Wrap(End(last)) in Starts(swept)
  }

  /** Every recognised target that is not above a bound is an instruction start. */
  ghost predicate TargetsAreStartsUpTo(swept: seq<Swept>, a: Address) {
    forall s :: s in swept && IsJump(s) && s.decoded.target <= a ==> s.decoded.target in Starts(swept)
  }

  ghost predicate LastFallsThrough(swept: seq<Swept>)
    requires swept != []
  {
    LastFallsThroughUpTo(swept, swept[|swept| - 1].address)
  }

  /** Every recognised target that is not above the last instruction is an instruction start. */
  ghost predicate TargetsAreStarts(swept: seq<Swept>)
    requires swept != []
  {
    TargetsAreStartsUpTo(swept, swept[|swept| - 1].address)
  }

  ghost predicate LeadersAreStartsUpTo(swept: seq<Swept>, base: Address, a: Address) {
    forall l :: l in Leaders(base, swept) && l <= a ==> l in Starts(swept)
  }

  lemma FallThroughs(swept: seq<Swept>, base: Address, high: nat, i: nat)
    requires Tiles(swept, base, high) && i + 1 < |swept|
    ensures base < End(swept[i]) == Wrap(End(swept[i])) && End(swept[i]) == Starts(swept)[i + 1]
  {
    assert swept[i + 1].address == End(swept[i]);
  }

  /** A leader up to a bound is an instruction start, if targets and the end of the last instruction are. */
  lemma LeaderIsStart(swept: seq<Swept>, base: Address, high: nat, a: Address, i: nat, l: Address)
    requires Tiles(swept, base, high) && i < |swept| && GivesLeader(swept[i], l) && l <= a
    requires TargetsAreStartsUpTo(swept, a) && LastFallsThroughUpTo(swept, a)
    ensures l in Starts(swept)
  {
    assert swept[i] in swept;
    if i + 1 < |swept| {
      FallThroughs(swept, base, high, i);
      assert Starts(swept)[i + 1] in Starts(swept);
    }
  }

  lemma {:induction false} LeadersStart(swept: seq<Swept>, base: Address, high: nat, a: Address)
    requires Tiles(swept, base, high) && swept != []
    requires TargetsAreStartsUpTo(swept, a) && LastFallsThroughUpTo(swept, a)
    ensures LeadersAreStartsUpTo(swept, base, a)
  {
    var starts, leaders := Starts(swept), Leaders(base, swept);
    assert starts[0] == base;
    forall l | l in leaders && l <= a ensures l in starts {
      LeadersElements(base, swept, l);
      if l != base {
        var s :| s in swept && GivesLeader(s, l);
        var i :| 0 <= i < |swept| && swept[i] == s;
        LeaderIsStart(swept, base, high, a, i, l);
      }
    }
  }

  /** Other fall-throughs are never in the way: up to any bound the leaders are starts exactly when the targets are. */
  lemma {:induction false} LeadersFromTargets(swept: seq<Swept>, base: Address, high: nat, a: Address)
    requires Tiles(swept, base, high) && swept != []
    ensures LeadersAreStartsUpTo(swept, base, a) <==> TargetsAreStartsUpTo(swept, a) && LastFallsThroughUpTo(swept, a)
  {
    if TargetsAreStartsUpTo(swept, a) && LastFallsThroughUpTo(swept, a) {
      LeadersStart(swept, base, high, a);
    }
    LastIsLeader(swept, base);
    forall s | s in swept && IsJump(s) ensures s.decoded.target in Leaders(base, swept) {
      LeaderOf(base, swept, s, s.decoded.target);
    }
  }

  lemma LastIsLeader(swept: seq<Swept>, base: Address)
    requires swept != []
    ensures var last := swept[|swept| - 1]; IsJump(last) ==> Wrap(End(last)) in Leaders(base, swept)
  {
    var last := swept[|swept| - 1];
    if IsJump(last) {
      LeaderOf(base, swept, last, Wrap(End(last)));
    }
  }

  /** What keeps instruction `k` out of its textbook block, in terms of the jumps of the function. */
  ghost predicate JumpsFit(swept: seq<Swept>, k: nat)
    requires k < |swept|
  {
    TargetsAreStartsUpTo(swept, swept[k].address) && LastFallsThroughUpTo(swept, swept[k].address)
  }

  lemma LeadersFit(swept: seq<Swept>, base: Address, high: nat, k: nat)
    requires Tiles(swept, base, high) && k < |swept|
    ensures LeadersAreStarts(Starts(swept)[..k + 1], Leaders(base, swept)) <==> JumpsFit(swept, k)
  {
    StartsAscending(swept, base, high);
    LeadersUpToPrefix(Starts(swept), Leaders(base, swept), k);
    LeadersFromTargets(swept, base, high, swept[k].address);
  }

  /**
   An instruction is in its textbook block - the one of the greatest leader not above it - exactly when no
   jump of the function targets a place up to it that is not an instruction start, nor falls through to one
   around the top of the address space.
   */
  lemma {:induction false} InstructionPlaced(swept: seq<Swept>, base: Address, high: nat, k: nat)
    requires Tiles(swept, base, high) && k < |swept|
    ensures TextbookBlock(Starts(swept), Leaders(base, swept), k) <==> JumpsFit(swept, k)
  {
    StartsAscending(swept, base, high);
    LeadersElements(base, swept, base);
    LeadersFit(swept, base, high, k);
    PlacedExactly(Starts(swept), Leaders(base, swept), k);
  }

  lemma FitsEarlier(swept: seq<Swept>, base: Address, high: nat, k: nat)
    requires Tiles(swept, base, high) && k < |swept| && JumpsFit(swept, |swept| - 1)
    ensures JumpsFit(swept, k)
  {
    if k < |swept| - 1 {
      TilesAscending(swept, base, high, k, |swept| - 1);
    }
  }

  /**
   So the whole partition of a function is the textbook one exactly when this holds up to the last
   instruction.
   */
  lemma {:induction false} FunctionPartition(swept: seq<Swept>, base: Address, high: nat)
    requires Tiles(swept, base, high) && swept != []
    ensures (forall k :: 0 <= k < |swept| ==> TextbookBlock(Starts(swept), Leaders(base, swept), k))
      <==> TargetsAreStarts(swept) && LastFallsThrough(swept)
  {
    InstructionPlaced(swept, base, high, |swept| - 1);
    if JumpsFit(swept, |swept| - 1) {
      forall k | 0 <= k < |swept| ensures TextbookBlock(Starts(swept), Leaders(base, swept), k) {
        FitsEarlier(swept, base, high, k);
        InstructionPlaced(swept, base, high, k);
      }
    }
  }

  /** Instruction `k` is the first of a block of this function. */
  ghost predicate BeginsBlock(swept: seq<Swept>, base: Address, k: nat)
    requires k < |swept|
  {
    var starts, leaders := Starts(swept), Leaders(base, swept);
    Pointer(starts, leaders, k + 1) == Pointer(starts, leaders, k) + 1
  }

  /** A recognised jump is the last instruction of its block exactly when the jumps fit up to the next instruction. */
  lemma {:induction false} JumpEndsBlock(swept: seq<Swept>, base: Address, high: nat, k: nat)
    requires Tiles(swept, base, high) && k + 1 < |swept| && IsJump(swept[k])
    ensures BeginsBlock(swept, base, k + 1) <==> JumpsFit(swept, k + 1)
  {
    StartsAscending(swept, base, high);
    LeadersFit(swept, base, high, k + 1);
    FallThroughIsLeader(swept, base, high, k);
    BlockBegins(Starts(swept), Leaders(base, swept), k + 1);
  }

  lemma {:induction false} FallThroughIsLeader(swept: seq<Swept>, base: Address, high: nat, k: nat)
    requires Tiles(swept, base, high) && k + 1 < |swept| && IsJump(swept[k])
    ensures Starts(swept)[k + 1] in Leaders(base, swept)
  {
    FallThroughs(swept, base, high, k);
    LeaderOf(base, swept, swept[k], Wrap(End(swept[k])));
  }

  /** An instruction that a jump of the function targets is the first of a block exactly when the jumps fit up to it. */
  lemma {:induction false} TargetBeginsBlock(swept: seq<Swept>, base: Address, high: nat, s: Swept, k: nat)
    requires Tiles(swept, base, high) && s in swept && IsJump(s)
    requires k < |swept| && swept[k].address == s.decoded.target
    ensures BeginsBlock(swept, base, k) <==> JumpsFit(swept, k)
  {
    StartsAscending(swept, base, high);
    LeaderOf(base, swept, s, s.decoded.target);
    LeadersFit(swept, base, high, k);
    BlockBegins(Starts(swept), Leaders(base, swept), k);
  }

  /** So when all targets fit, every target inside the function is the first instruction of a block. */
  lemma {:induction false} EveryTargetBeginsBlock(swept: seq<Swept>, base: Address, high: nat, s: Swept)
    requires Tiles(swept, base, high) && s in swept && TargetsAreStarts(swept) && LastFallsThrough(swept)
    requires IsJump(s) && s.decoded.target <= swept[|swept| - 1].address
    ensures exists k :: 0 <= k < |swept| && swept[k].address == s.decoded.target && BeginsBlock(swept, base, k)
  {
    var k :| 0 <= k < |swept| && Starts(swept)[k] == s.decoded.target;
    FitsEarlier(swept, base, high, k);
    TargetBeginsBlock(swept, base, high, s, k);
  }

  /**
   In terms of what the subscribers see: every instruction up to which the jumps fit arrives with its address
   and text, in the block of this function whose id is the greatest leader not above it, and behind a
   recognised jump a new block begins.
   */
  lemma {:induction false} EmittedBlocks(swept: seq<Swept>, base: Address, high: nat, owner: RawSymbol,
                                         before: seq<BasicBlock>, k: nat)
    requires Tiles(swept, base, high) && k < |swept| && JumpsFit(swept, k)
    requires !NoBlock(Starts(swept), Leaders(base, swept), before)
    ensures
      var i := Emitted(swept, Leaders(base, swept), owner, before, |swept|)[k];
      && i.address == swept[k].address && i.text == swept[k].decoded.text
      && i.parent.parent == owner && GreatestBelow(Leaders(base, swept), i.address, i.parent.id)
      && (k > 0 && IsJump(swept[k - 1]) ==> i.parent.id == i.address)
  {
    var starts, leaders := Starts(swept), Leaders(base, swept);
    InstructionPlaced(swept, base, high, k);
    if k > 0 && IsJump(swept[k - 1]) {
      FallThroughIsLeader(swept, base, high, k - 1);
    }
  }

  // ----- a target before the function stops the pass -----

  ghost predicate JumpsBefore(swept: seq<Swept>, base: Address) {
    exists s :: s in swept && IsJump(s) && (s.decoded.target < base || Wrap(End(s)) < base)
  }

  lemma {:induction false} FirstLeader(swept: seq<Swept>, base: Address)
    ensures var leaders := Leaders(base, swept);
      leaders != [] && leaders[0] <= base && (leaders[0] < base <==> JumpsBefore(swept, base))
  {
    var leaders := Leaders(base, swept);
    LeadersElements(base, swept, base);
    LeadersElements(base, swept, leaders[0]);
    if leaders[0] < base {
      var s :| s in swept && GivesLeader(s, leaders[0]);
      assert IsJump(s) && (s.decoded.target < base || Wrap(End(s)) < base);
    }
    if JumpsBefore(swept, base) {
      var s :| s in swept && IsJump(s) && (s.decoded.target < base || Wrap(End(s)) < base);
      LeaderOf(base, swept, s, if s.decoded.target < base then s.decoded.target else Wrap(End(s)));
    }
  }

  lemma {:induction false} StuckAtFirst(starts: seq<Address>, leaders: seq<Address>, k: nat)
    requires k <= |starts| && leaders != [] && leaders[0] !in starts
    ensures Pointer(starts, leaders, k) == 0
  {
    if k > 0 {
      StuckAtFirst(starts, leaders, k - 1);
    }
  }

  /**
   A function opens no block at all exactly when one of its jumps leads to a place before it - by its target,
   or by a fall-through that wraps around the top of the address space. Its instructions then go to the last
   block of an earlier function, and when there is none the pass fails.
   */
  lemma {:induction false} BackwardJumpOpensNothing(swept: seq<Swept>, base: Address, high: nat,
                                                    before: seq<BasicBlock>)
    requires Tiles(swept, base, high) && swept != []
    ensures var starts, leaders := Starts(swept), Leaders(base, swept);
      && (Pointer(starts, leaders, |starts|) == 0 <==> JumpsBefore(swept, base))
      && (NoBlock(starts, leaders, before) <==> before == [] && JumpsBefore(swept, base))
  {
    var starts, leaders := Starts(swept), Leaders(base, swept);
    FirstLeader(swept, base);
    assert starts[0] == base;
    if JumpsBefore(swept, base) {
      StuckAtFirst(starts, leaders, |starts|);
    } else {
      PointerMonotone(starts, leaders, 1, |starts|);
    }
  }

  // ----- targets above the function change nothing -----

  /** How many elements of an ascending sequence are not above a bound. */
  function CountUpTo(s: seq<Address>, bound: Address): (n: nat)
    ensures n <= |s| && (n < |s| ==> bound < s[n])
    ensures forall i :: 0 <= i < n ==> s[i] <= bound
  {
    if s == [] || bound < s[0] then 0 else 1 + CountUpTo(s[1..], bound)
  }

  function UpTo(s: seq<Address>, bound: Address): seq<Address> {
    s[..CountUpTo(s, bound)]
  }

  lemma UpToElements(s: seq<Address>, bound: Address)
    requires Ascending(s)
    ensures Ascending(UpTo(s, bound))
    ensures forall x :: x in UpTo(s, bound) <==> x in s && x <= bound
    ensures forall x :: x in s[CountUpTo(s, bound)..] ==> bound < x
  {
    var n := CountUpTo(s, bound);
    forall x | x in s && x <= bound ensures x in s[..n] {
      var i :| 0 <= i < |s| && s[i] == x;
      assert i < n;
      assert s[..n][i] == x;
    }
  }

  /** Two decoded instructions that differ at most in a recognised target above `bound`. */
  predicate SameUpToHigh(s: Swept, t: Swept, bound: Address) {
    && s.address == t.address && s.decoded.size == t.decoded.size && (IsJump(s) <==> IsJump(t))
    && (s.decoded.target == t.decoded.target || (bound < s.decoded.target && bound < t.decoded.target))
  }

  ghost predicate SameUpToHighTargets(a: seq<Swept>, b: seq<Swept>) {
    |a| == |b| && forall i :: 0 <= i < |a| ==> SameUpToHigh(a[i], b[i], a[|a| - 1].address)
  }

  lemma {:induction false} LowLeaders(a: seq<Swept>, b: seq<Swept>, base: Address, x: Address)
    requires a != [] && SameUpToHighTargets(a, b) && x <= a[|a| - 1].address && x in Leaders(base, a)
    ensures x in Leaders(base, b)
  {
    LeadersElements(base, a, x);
    if x != base {
      var s :| s in a && GivesLeader(s, x);
      var i :| 0 <= i < |a| && a[i] == s;
      assert SameUpToHigh(s, b[i], a[|a| - 1].address);
      SameLeader(s, b[i], a[|a| - 1].address, x);
      LeaderOf(base, b, b[i], x);
    } else {
      LeadersElements(base, b, x);
    }
  }

  lemma SameLeader(s: Swept, t: Swept, bound: Address, x: Address)
    requires SameUpToHigh(s, t, bound) && GivesLeader(s, x) && x <= bound
    ensures GivesLeader(t, x)
  {
  }

  lemma {:induction false} LeaderOf(base: Address, swept: seq<Swept>, s: Swept, x: Address)
    requires s in swept && GivesLeader(s, x)
    ensures x in Leaders(base, swept)
  {
    LeadersElements(base, swept, x);
  }

  /** Where a jump leads above the function - be it the sentinel of an unknown target - does not show in the blocks. */
  lemma {:induction false} HighTargetsIgnored(a: seq<Swept>, b: seq<Swept>, base: Address, high: nat, k: nat)
    requires Tiles(a, base, high) && a != [] && SameUpToHighTargets(a, b) && k <= |a|
    ensures Pointer(Starts(a), Leaders(base, a), k) == Pointer(Starts(b), Leaders(base, b), k)
  {
    var starts, bound := Starts(a), a[|a| - 1].address;
    forall i | 0 <= i < |a| ensures a[i].address == b[i].address {
      assert SameUpToHigh(a[i], b[i], bound);
    }
    assert Starts(b) == starts;
    StartsAscending(a, base, high);
    var la, lb := Leaders(base, a), Leaders(base, b);
    UpToElements(la, bound);
    UpToElements(lb, bound);
    forall x ensures x in UpTo(la, bound) <==> x in UpTo(lb, bound) {
      if x in la && x <= bound { LowLeaders(a, b, base, x); }
      if x in lb && x <= bound {
        SameUpToHighSymmetric(a, b);
        LowLeaders(b, a, base, x);
      }
    }
    ElementsDetermine(UpTo(la, bound), UpTo(lb, bound));
    LowPartDecides(starts, la, bound, k);
    LowPartDecides(starts, lb, bound, k);
  }

  lemma SameUpToHighSymmetric(a: seq<Swept>, b: seq<Swept>)
    requires a != [] && SameUpToHighTargets(a, b)
    ensures SameUpToHighTargets(b, a) && a[|a| - 1].address == b[|b| - 1].address
  {
    assert SameUpToHigh(a[|a| - 1], b[|a| - 1], a[|a| - 1].address);
    forall i | 0 <= i < |b| ensures SameUpToHigh(b[i], a[i], b[|b| - 1].address) {
      assert SameUpToHigh(a[i], b[i], a[|a| - 1].address);
    }
  }

  lemma LowPartDecides(starts: seq<Address>, leaders: seq<Address>, bound: Address, k: nat)
    requires Ascending(leaders) && k <= |starts| && forall x :: x in starts ==> x <= bound
    ensures Pointer(starts, leaders, k) == Pointer(starts, UpTo(leaders, bound), k)
  {
    var low := UpTo(leaders, bound);
    UpToElements(leaders, bound);
    assert leaders == low + leaders[|low|..];
    HighLeadersIgnored(starts, low, leaders[|low|..], k);
  }
}
