/**
 The sweep over one function: instructions are decoded one after the other, leaders are
 collected on the way, and a second pass cuts the instructions into basic blocks.
 */
module Disassembler {
  import opened Wrappers
  import opened OrderedSet
  import opened BasicBlocks
  import opened Symbols

  /** What the text of an instruction that is no jump is matched to. */
  const NO_JUMP: Address := TWO_TO_THE_64 - 1

  /** Outcome of decoding at one address: a size (not positive on failure), the text, and the matched jump target. */
  datatype Decoded = Decoded(size: int, text: string, target: Address)

  type Decoder = Address -> Decoded

  datatype Swept = Swept(address: Address, decoded: Decoded)

  datatype BasicBlock = BasicBlock(id: Address, parent: RawSymbol)

  datatype Instruction = Instruction(parent: BasicBlock, text: string, address: Address)

  /** Conversion of a size to `int`: the low 32 bits in two's complement. */
  function ToInt(x: Address): int {
    var low := x % 0x1_0000_0000;
    if low < 0x8000_0000 then low else low - 0x1_0000_0000
  }

  lemma ToIntAtMost(x: Address)
    ensures ToInt(x) <= x
  {
  }

  // ----- the sweep -----

  /** What the decoder finds at each offset from a function's address. */
  type Reader = nat -> Swept

  function ReaderAt(decode: Decoder, base: Address): Reader {
    (offset: nat) => Swept(Wrap(base + offset), decode(Wrap(base + offset)))
  }

  function Sweep(read: Reader, offset: nat, max: int): seq<Swept>
    decreases max - offset
  {
    var s := read(offset);
    if s.decoded.size > 0 && offset < max then [s] + Sweep(read, offset + s.decoded.size, max) else []
  }

  function Starts(swept: seq<Swept>): (s: seq<Address>)
    ensures |s| == |swept| && forall i :: 0 <= i < |s| ==> s[i] == swept[i].address
  {
    seq(|swept|, i requires 0 <= i < |swept| => swept[i].address)
  }

  predicate IsJump(s: Swept) {
    s.decoded.target != NO_JUMP
  }

  function End(s: Swept): int {
    s.address + s.decoded.size
  }

  /** A recognised jump makes its target and its fall-through leaders. */
  predicate GivesLeader(s: Swept, x: Address) {
    IsJump(s) && (x == s.decoded.target || x == Wrap(End(s)))
  }

  function AddLeaders(leaders: seq<Address>, s: Swept): (r: seq<Address>)
    requires Ascending(leaders)
    ensures Ascending(r)
  {
    if IsJump(s) then Emplace(Emplace(leaders, s.decoded.target), Wrap(End(s))) else leaders
  }

  lemma AddLeadersElements(leaders: seq<Address>, s: Swept, x: Address)
    requires Ascending(leaders)
    ensures x in AddLeaders(leaders, s) <==> x in leaders || GivesLeader(s, x)
  {
  }

  function Leaders(base: Address, swept: seq<Swept>): (r: seq<Address>)
    ensures Ascending(r)
  {
    if swept == [] then [base] else AddLeaders(Leaders(base, swept[..|swept| - 1]), swept[|swept| - 1])
  }

  /** The sweep continued behind the instructions collected so far. */
  function SweepOnto(read: Reader, offset: nat, max: int, done: seq<Swept>): seq<Swept>
    decreases max - offset
  {
    var s := read(offset);
    if s.decoded.size > 0 && offset < max then SweepOnto(read, offset + s.decoded.size, max, done + [s]) else done
  }

  lemma {:induction false} SweepOntoAppends(read: Reader, offset: nat, max: int, done: seq<Swept>)
    ensures SweepOnto(read, offset, max, done) == done + Sweep(read, offset, max)
    decreases max - offset
  {
    var s := read(offset);
    if s.decoded.size > 0 && offset < max {
      SweepOntoAppends(read, offset + s.decoded.size, max, done + [s]);
    }
  }

  lemma LeadersStep(base: Address, done: seq<Swept>, s: Swept)
    ensures Leaders(base, done + [s]) == AddLeaders(Leaders(base, done), s)
  {
    assert (done + [s])[..|done|] == done;
  }

  lemma {:induction false} LeadersElements(base: Address, swept: seq<Swept>, x: Address)
    ensures x in Leaders(base, swept) <==>
      x == base || exists s :: s in swept && GivesLeader(s, x)
  {
    if swept != [] {
      var last := swept[|swept| - 1];
      LeadersElements(base, swept[..|swept| - 1], x);
      AddLeadersElements(Leaders(base, swept[..|swept| - 1]), last, x);
      assert forall s :: s in swept <==> s in swept[..|swept| - 1] || s == last;
    }
  }

  /** The leaders spelled out: every matched target but 2^64-1 counts, also the one of an unknown target. */
  lemma {:induction false} LeadersSpelled(base: Address, swept: seq<Swept>, x: Address)
    ensures x in Leaders(base, swept) <==> x == base || exists s :: s in swept && LeadsTo(s, x)
  {
    LeadersElements(base, swept, x);
    forall s | s in swept ensures GivesLeader(s, x) <==> LeadsTo(s, x) {
    }
  }

  predicate LeadsTo(s: Swept, x: Address) {
    && s.decoded.target != 0xffff_ffff_ffff_ffff
    && (x == s.decoded.target || x == (s.address + s.decoded.size) % 0x1_0000_0000_0000_0000)
  }

  // ----- the blocks -----

  /** The block an instruction is attached to; without a block of its own function it is the last one before. */
  function ParentOf(starts: seq<Address>, leaders: seq<Address>, owner: RawSymbol, before: seq<BasicBlock>, k: nat)
    : BasicBlock
    requires k < |starts| && (before != [] || Pointer(starts, leaders, k + 1) > 0)
  {
    var p := Pointer(starts, leaders, k + 1);
    if p > 0 then BasicBlock(leaders[p - 1], owner) else before[|before| - 1]
  }

  /** The very first instruction finds no block: no block came before and its address is not the first leader. */
  predicate NoBlock(starts: seq<Address>, leaders: seq<Address>, before: seq<BasicBlock>) {
    before == [] && starts != [] && (leaders == [] || leaders[0] != starts[0])
  }

  lemma HasBlock(starts: seq<Address>, leaders: seq<Address>, before: seq<BasicBlock>, k: nat)
    requires k < |starts| && !NoBlock(starts, leaders, before)
    ensures before != [] || Pointer(starts, leaders, k + 1) > 0
  {
    PointerMonotone(starts, leaders, 1, k + 1);
  }

  lemma AllHaveBlocks(starts: seq<Address>, leaders: seq<Address>, before: seq<BasicBlock>)
    requires !NoBlock(starts, leaders, before)
    ensures forall k :: 1 <= k <= |starts| ==> before != [] || Pointer(starts, leaders, k) > 0
  {
    forall k | 1 <= k <= |starts| ensures before != [] || Pointer(starts, leaders, k) > 0 {
      HasBlock(starts, leaders, before, k - 1);
    }
  }

  function OpenedBlocks(leaders: seq<Address>, owner: RawSymbol, n: nat): (r: seq<BasicBlock>)
    requires n <= |leaders|
    ensures |r| == n && forall i :: 0 <= i < n ==> r[i] == BasicBlock(leaders[i], owner)
  {
    seq(n, i requires 0 <= i < n => BasicBlock(leaders[i], owner))
  }

  function Emitted(swept: seq<Swept>, leaders: seq<Address>, owner: RawSymbol, before: seq<BasicBlock>, n: nat)
    : (r: seq<Instruction>)
    requires n <= |swept| && !NoBlock(Starts(swept), leaders, before)
    ensures |r| == n
  {
    AllHaveBlocks(Starts(swept), leaders, before);
    seq(n, k requires 0 <= k < n =>
      Instruction(ParentOf(Starts(swept), leaders, owner, before, k), swept[k].decoded.text, swept[k].address))
  }

  lemma OpenedStep(leaders: seq<Address>, owner: RawSymbol, n: nat)
    requires n < |leaders|
    ensures OpenedBlocks(leaders, owner, n + 1) == OpenedBlocks(leaders, owner, n) + [BasicBlock(leaders[n], owner)]
  {
  }

  lemma EmittedStep(swept: seq<Swept>, leaders: seq<Address>, owner: RawSymbol, before: seq<BasicBlock>, n: nat)
    requires n < |swept| && !NoBlock(Starts(swept), leaders, before)
    ensures before != [] || Pointer(Starts(swept), leaders, n + 1) > 0
    ensures Emitted(swept, leaders, owner, before, n + 1) == Emitted(swept, leaders, owner, before, n) +
      [Instruction(ParentOf(Starts(swept), leaders, owner, before, n), swept[n].decoded.text, swept[n].address)]
  {
    HasBlock(Starts(swept), leaders, before, n);
  }

  lemma LastBlock(starts: seq<Address>, leaders: seq<Address>, owner: RawSymbol, before: seq<BasicBlock>, k: nat)
    requires k < |starts|
    ensures var blocks := before + OpenedBlocks(leaders, owner, Pointer(starts, leaders, k + 1));
      blocks != [] ==> blocks[|blocks| - 1] == ParentOf(starts, leaders, owner, before, k)
  {
  }

  // ----- what subscribers are sent, step by step -----

  /** The address at an offset from a function's. */
  predicate IsAt(a: Address, base: Address, offset: nat) {
    a == (base + offset) % 0x1_0000_0000_0000_0000
  }

  /** One step of a walk: an instruction is sent with its own address and text. */
  predicate Sends(i: Instruction, decode: Decoder, base: Address, offset: nat) {
    IsAt(i.address, base, offset) && i.text == decode(i.address).text && decode(i.address).size > 0
  }

  /** A walk ends when its offset reaches the bound, or where nothing can be decoded. */
  predicate Ends(decode: Decoder, base: Address, offset: nat, bound: nat) {
    offset >= bound || decode((base + offset) % 0x1_0000_0000_0000_0000).size <= 0
  }

  /** From an offset on, one instruction after the other is decoded and sent, each starting below the bound. */
  ghost predicate Walks(s: seq<Instruction>, decode: Decoder, base: Address, offset: nat, bound: nat)
    decreases |s|
  {
    if s == [] then Ends(decode, base, offset, bound)
    else
      && offset < bound && Sends(s[0], decode, base, offset)
      && Walks(s[1..], decode, base, offset + decode(s[0].address).size, bound)
  }

  /**
   What is sent for a function of a given size: the walk from its address over as many bytes as the low 32 bits
   of the size say, read as a signed number - nothing at all when that is negative.
   */
  ghost predicate Walk(s: seq<Instruction>, decode: Decoder, base: Address, size: Address) {
    var low := size % 0x1_0000_0000;
    if low < 0x8000_0000 then Walks(s, decode, base, 0, low) else s == []
  }

  lemma ReadsAt(decode: Decoder, base: Address, offset: nat)
    ensures var a: Address := (base + offset) % 0x1_0000_0000_0000_0000;
      ReaderAt(decode, base)(offset) == Swept(a, decode(a))
  {
    assert Wrap(base + offset) == (base + offset) % 0x1_0000_0000_0000_0000;
  }

  /** Instructions with the addresses and texts of a sweep. */
  ghost predicate Reports(s: seq<Instruction>, swept: seq<Swept>) {
    && |s| == |swept|
    && forall k :: 0 <= k < |s| ==> s[k].address == swept[k].address && s[k].text == swept[k].decoded.text
  }

  lemma {:induction false} SweepWalks(s: seq<Instruction>, decode: Decoder, base: Address, offset: nat, bound: nat)
    requires Reports(s, Sweep(ReaderAt(decode, base), offset, bound))
    ensures Walks(s, decode, base, offset, bound)
    decreases bound - offset
  {
    var read := ReaderAt(decode, base);
    ReadsAt(decode, base, offset);
    var size := read(offset).decoded.size;
    if size > 0 && offset < bound {
      var rest := Sweep(read, offset + size, bound);
      assert Sweep(read, offset, bound) == [read(offset)] + rest;
      assert Reports(s[1..], rest) by {
        assert forall k :: 0 <= k < |rest| ==> rest[k] == Sweep(read, offset, bound)[k + 1];
      }
      SweepWalks(s[1..], decode, base, offset + size, bound);
    }
  }

  /** Conversely the walk leaves no choice. */
  lemma {:induction false} WalksUnique(s: seq<Instruction>, t: seq<Instruction>, decode: Decoder, base: Address,
                                       offset: nat, bound: nat)
    requires Walks(s, decode, base, offset, bound) && Walks(t, decode, base, offset, bound)
    ensures |s| == |t| && forall k :: 0 <= k < |s| ==> s[k].address == t[k].address && s[k].text == t[k].text
    decreases |s|
  {
    if s != [] && t != [] {
      WalksUnique(s[1..], t[1..], decode, base, offset + decode(s[0].address).size, bound);
      assert forall k :: 1 <= k < |s| ==> s[k] == s[1..][k - 1] && t[k] == t[1..][k - 1];
    }
  }

  /** The sweep of a function sends its walk. */
  lemma {:induction false} SweepIsWalk(s: seq<Instruction>, decode: Decoder, base: Address, size: Address)
    requires Reports(s, Sweep(ReaderAt(decode, base), 0, ToInt(size)))
    ensures Walk(s, decode, base, size)
  {
    if size % 0x1_0000_0000 < 0x8000_0000 {
      SweepWalks(s, decode, base, 0, size % 0x1_0000_0000);
    }
  }

  lemma EmittedReports(swept: seq<Swept>, leaders: seq<Address>, owner: RawSymbol, before: seq<BasicBlock>)
    requires !NoBlock(Starts(swept), leaders, before)
    ensures Reports(Emitted(swept, leaders, owner, before, |swept|), swept)
  {
  }

  /** What the subscribers have seen and which blocks exist, over all functions so far. */
  class Listing {
    var blocks: seq<BasicBlock>
    var instructions: seq<Instruction>

    constructor ()
      ensures blocks == [] && instructions == []
    {
      blocks, instructions := [], [];
    }
  }

  class SymbolDataLoader {
    const symbol: RawSymbol

    constructor (symbol: RawSymbol)
      ensures this.symbol == symbol
    {
      this.symbol := symbol;
    }

    /** The first loop: collects the instructions and the ordered set of leaders. */
    method Collect(read: Reader, maxOffset: int) returns (instructions: seq<Swept>, leaders: seq<Address>)
      ensures instructions == Sweep(read, 0, maxOffset)
      ensures leaders == Leaders(symbol.value, instructions)
    {
      var offset: nat := 0;
      instructions := [];
      leaders := [symbol.value];
      var s := read(offset);
      while s.decoded.size > 0 && offset < maxOffset
        invariant s == read(offset)
        invariant SweepOnto(read, offset, maxOffset, instructions) == SweepOnto(read, 0, maxOffset, [])
        invariant leaders == Leaders(symbol.value, instructions)
        decreases maxOffset - offset
      {
        LeadersStep(symbol.value, instructions, s);
        leaders := AddLeaders(leaders, s);
        instructions := instructions + [s];
        offset := offset + s.decoded.size;
        s := read(offset);
      }
      SweepOntoAppends(read, 0, maxOffset, []);
    }

    /** The second loop: opens the blocks and passes the instructions on. */
    method Partition(listing: Listing, instructions: seq<Swept>, leaders: seq<Address>) returns (ok: bool)
      modifies listing
      ensures
        var starts := Starts(instructions);
        && ok == !NoBlock(starts, leaders, old(listing.blocks))
        && listing.blocks == old(listing.blocks) +
             (if ok then OpenedBlocks(leaders, symbol, Pointer(starts, leaders, |starts|)) else [])
        && listing.instructions == old(listing.instructions) +
             (if ok then Emitted(instructions, leaders, symbol, old(listing.blocks), |instructions|) else [])
    {
      ghost var starts := Starts(instructions);
      ghost var before := listing.blocks;
      ghost var fine := !NoBlock(starts, leaders, before);
      var next := 0;
      for k := 0 to |instructions|
        invariant next == Pointer(starts, leaders, k)
        invariant k > 0 ==> fine
        invariant listing.blocks == before + OpenedBlocks(leaders, symbol, next)
        invariant !fine ==> listing.instructions == old(listing.instructions)
        invariant fine ==>
          listing.instructions == old(listing.instructions) + Emitted(instructions, leaders, symbol, before, k)
      {
        if next < |leaders| && instructions[k].address == leaders[next] {
          OpenedStep(leaders, symbol, next);
          listing.blocks := listing.blocks + [BasicBlock(leaders[next], symbol)];
          next := next + 1;
        }
        assert next == Pointer(starts, leaders, k + 1);
        if listing.blocks == [] {
          PointerMonotone(starts, leaders, 1, k + 1);
          return false;
        }
        LastBlock(starts, leaders, symbol, before, k);
        if fine {
          EmittedStep(instructions, leaders, symbol, before, k);
        }
        listing.instructions := listing.instructions +
          [Instruction(listing.blocks[|listing.blocks| - 1], instructions[k].decoded.text, instructions[k].address)];
      }
      return true;
    }

    /** Decodes one function into the listing; false when the assertion on the block buffer fails. */
    method Fetch(listing: Listing, decode: Decoder, symSize: Address) returns (ok: bool)
      modifies listing
      ensures
        var swept := Sweep(ReaderAt(decode, symbol.value), 0, ToInt(symSize));
        var starts, leaders := Starts(swept), Leaders(symbol.value, swept);
        && ok == !NoBlock(starts, leaders, old(listing.blocks))
        && listing.blocks == old(listing.blocks) +
             (if ok then OpenedBlocks(leaders, symbol, Pointer(starts, leaders, |starts|)) else [])
        && listing.instructions == old(listing.instructions) +
             (if ok then Emitted(swept, leaders, symbol, old(listing.blocks), |swept|) else [])
      ensures old(listing.instructions) <= listing.instructions
      ensures ok ==> Walk(listing.instructions[|old(listing.instructions)|..], decode, symbol.value, symSize)
      ensures !ok ==> listing.instructions == old(listing.instructions)
    {
      var instructions, leaders := Collect(ReaderAt(decode, symbol.value), ToInt(symSize));
      ghost var before, sent := listing.blocks, listing.instructions;
      ok := Partition(listing, instructions, leaders);
      if ok {
        EmittedReports(instructions, leaders, symbol, before);
        ghost var added := Emitted(instructions, leaders, symbol, before, |instructions|);
        assert listing.instructions[|sent|..] == added;
        SweepIsWalk(added, decode, symbol.value, symSize);
      }
    }
  }
}
