/** What the emitted IR computes: it simulates the flags, and the flags decide by the order of the compared values. */
module Simulation {
  import opened Wrappers
  import opened Patterns
  import opened Nodes
  import opened Decoder
  import opened Operands
  import opened SymbolTable
  import opened Ir
  import opened Mapper
  import opened Lowering

  // ----- which factory reacts -----

  /** The mnemonics of the two factories are disjoint, so the order of registration does not matter. */
  lemma {:induction false} FactoriesExclusive(fs: seq<Factory>, i: Assembly, regs: Registers, table: seq<Entry>)
    requires forall f :: f in fs ==>
      f.react(i, table) == EmitCompare(i, regs, table) || f.react(i, table) == EmitJump(i, regs, table)
    ensures Exclusive(fs, i, table)
  {
    assert "cmp" !in GT_JUMPS && "cmp" !in LE_JUMPS && "test" !in GT_JUMPS && "test" !in LE_JUMPS by {
      assert "cmp"[0] != 'j' && "test"[0] != 'j';
    }
  }

  /** The families whose conditions the source leaves empty emit nothing. */
  lemma {:induction false} UnfinishedFamiliesEmitNothing(i: Assembly, regs: Registers, table: seq<Entry>)
    requires i.name in ["jae", "jge", "jnb", "jnl", "jb", "jl", "jnae", "jnge", "je", "jne"]
    ensures EmitCompare(i, regs, table) == NOTHING && EmitJump(i, regs, table) == NOTHING
  {
    assert i.name[0] == 'j';
    assert i.name !in GT_JUMPS && i.name !in LE_JUMPS;
  }

  // ----- definitions and uses -----

  /** Every temporary is written inside the group before it is read. */
  ghost predicate LocalsDefined(group: seq<Instruction>) {
    forall k, v :: 0 <= k < |group| && v in UsedSymbols(group[k]) && v.Local? ==>
      exists j :: 0 <= j < k && v in Definitions(group[j])
  }

  function AllDefinitions(group: seq<Instruction>): set<Value> {
    set k, v | 0 <= k < |group| && v in Definitions(group[k]) :: v
  }

  lemma CompareLocals(zf: Value, cf: Value, lhs: Value, rhs: Value)
    requires !zf.Local? && !cf.Local? && !lhs.Local? && !rhs.Local?
    ensures LocalsDefined(CompareGroup(zf, cf, lhs, rhs)) && AllDefinitions(CompareGroup(zf, cf, lhs, rhs)) == {zf, cf}
  {
    var g := CompareGroup(zf, cf, lhs, rhs);
    assert zf in Definitions(g[0]) && cf in Definitions(g[1]);
  }

  lemma TestLocals(zf: Value, sf: Value, pf: Value, lhs: Value, rhs: Value)
    requires !zf.Local? && !sf.Local? && !pf.Local? && !lhs.Local? && !rhs.Local?
    ensures LocalsDefined(TestGroup(zf, sf, pf, lhs, rhs))
    ensures AllDefinitions(TestGroup(zf, sf, pf, lhs, rhs)) == {TEMPORARY, zf, sf, pf}
  {
    var g := TestGroup(zf, sf, pf, lhs, rhs);
    assert TEMPORARY in Definitions(g[0]) && sf in Definitions(g[1]);
    assert zf in Definitions(g[2]) && pf in Definitions(g[3]);
  }

  lemma JumpLocals(zf: Value, cf: Value, operator: Operator, bit: Value, destination: Value)
    requires !zf.Local? && !cf.Local? && !bit.Local? && !destination.Local?
    ensures var g := [Cmp(TEMP_RESULT, cf, EQ, bit), Cmp(TEMP2_RESULT, zf, EQ, bit),
                      BinaryOperation(TEMP_RESULT, TEMP2_RESULT, operator, TEMP_RESULT)];
      LocalsDefined(g) && LocalsDefined(g + [Branch(TEMP_RESULT, destination)]) &&
      AllDefinitions(g) == {TEMP_RESULT, TEMP2_RESULT} == AllDefinitions(g + [Branch(TEMP_RESULT, destination)])
  {
    var g := [Cmp(TEMP_RESULT, cf, EQ, bit), Cmp(TEMP2_RESULT, zf, EQ, bit),
              BinaryOperation(TEMP_RESULT, TEMP2_RESULT, operator, TEMP_RESULT)];
    var h := g + [Branch(TEMP_RESULT, destination)];
    assert TEMP_RESULT in Definitions(g[0]) && TEMP2_RESULT in Definitions(g[1]);
    assert TEMP_RESULT in Definitions(h[0]) && TEMP2_RESULT in Definitions(h[1]);
  }

  /** What the compare factory emits reads no temporary before it is written; `cmp` writes exactly zf and cf. */
  lemma {:induction false} CompareEmissionLocals(i: Assembly, regs: Registers, table: seq<Entry>)
    ensures var g := EmitCompare(i, regs, table).group;
      LocalsDefined(g) &&
      (i.name == "cmp" && g != [] ==> AllDefinitions(g) == {Lookup(table, "_zf"), Lookup(table, "_cf")}) &&
      (i.name == "test" ==>
        AllDefinitions(g) <= {TEMPORARY, Lookup(table, "_zf"), Lookup(table, "_sf"), Lookup(table, "_pf")})
  {
    var zf, cf, sf, pf := Lookup(table, "_zf"), Lookup(table, "_cf"), Lookup(table, "_sf"), Lookup(table, "_pf");
    var g := EmitCompare(i, regs, table).group;
    if g != [] {
      var lhs, rhs := Argument(i, 0, regs, AddressIndex(table)), Argument(i, 1, regs, AddressIndex(table));
      CompareLocals(zf, cf, lhs, rhs);
      TestLocals(zf, sf, pf, lhs, rhs);
    }
  }

  /** What the jump factory emits reads no temporary before it is written and writes no flag. */
  lemma {:induction false} JumpEmissionLocals(i: Assembly, regs: Registers, table: seq<Entry>)
    ensures var g := EmitJump(i, regs, table).group;
      LocalsDefined(g) && AllDefinitions(g) <= {TEMP_RESULT, TEMP2_RESULT}
  {
    var zf, cf := Lookup(table, "_zf"), Lookup(table, "_cf");
    var destination := if i.args == [] then Null else Argument(i, 0, regs, NO_FUNCTIONS);
    JumpLocals(zf, cf, AND, ZERO, destination);
    JumpLocals(zf, cf, OR, ONE, destination);
  }

  // ----- the flag machine -----

  /** What an assembly instruction means: its kind and its operands. */
  datatype Meaning =
    | Compares(lhs: Value, rhs: Value)
    | Tests(lhs: Value, rhs: Value)
    | Jumps(greater: bool, destination: Value)
    | Nothing

  function MeaningOf(i: Assembly, regs: Registers, functions: Functions): Meaning {
    if !Complete(i) then Nothing
    else if i.name == "cmp" then Compares(Argument(i, 0, regs, functions), Argument(i, 1, regs, functions))
    else if i.name == "test" then Tests(Argument(i, 0, regs, functions), Argument(i, 1, regs, functions))
    else if i.name in GT_JUMPS then Jumps(true, Argument(i, 0, regs, NO_FUNCTIONS))
    else if i.name in LE_JUMPS then Jumps(false, Argument(i, 0, regs, NO_FUNCTIONS))
    else Nothing
  }

  /** The arguments the factories ask for are there. */
  predicate Complete(i: Assembly) {
    WellFormed(i) && (i.name in GT_JUMPS || i.name in LE_JUMPS ==> i.args != [])
  }

  /** One instruction of a run, with the values all operands have at that moment. */
  datatype Step = Step(meaning: Meaning, operands: Valuation)

  datatype Flags = Flags(zf: bool, cf: bool)

  /** The effect of one instruction on the flags; `test` leaves cf alone. */
  function FlagStep(s: Step, m: Machine, flags: Flags): (Flags, seq<Event>) {
    match s.meaning
    case Compares(lhs, rhs) => (Flags(s.operands(lhs) == s.operands(rhs), m.lt(s.operands(lhs), s.operands(rhs))), [])
    case Tests(lhs, rhs) => (flags.(zf := m.and(s.operands(lhs), s.operands(rhs)) == 0), [])
    case Jumps(greater, destination) =>
      (flags, [Event(if greater then !flags.cf && !flags.zf else flags.cf || flags.zf, destination)])
    case Nothing => (flags, [])
  }

  function FlagRun(run: seq<Step>, m: Machine, flags: Flags): (Flags, seq<Event>) {
    if run == [] then (flags, [])
    else
      var (next, events) := FlagStep(run[0], m, flags);
      var (last, rest) := FlagRun(run[1..], m, next);
      (last, events + rest)
  }

  // ----- one group simulates one step -----

  /** The four flag registers the factories look up. */
  datatype FlagSymbols = FlagSymbols(zf: Value, cf: Value, sf: Value, pf: Value)

  function FlagSymbolsOf(table: seq<Entry>): FlagSymbols {
    FlagSymbols(Lookup(table, "_zf"), Lookup(table, "_cf"), Lookup(table, "_sf"), Lookup(table, "_pf"))
  }

  function IsFlag(v: Value, f: FlagSymbols): bool {
    v == f.zf || v == f.cf || v == f.sf || v == f.pf
  }

  /** The search for a flag that only `test` writes; Null in a run without tests, which never looks it up. */
  predicate TestFlag(v: Value, f: FlagSymbols) {
    v.Null? || (v.Shared? && v != f.zf && v != f.cf)
  }

  /** The searches succeed and find different symbols, none of them a constant. */
  predicate Resolved(f: FlagSymbols) {
    && f.zf.Shared? && f.cf.Shared? && f.zf != f.cf
    && TestFlag(f.sf, f) && TestFlag(f.pf, f) && (f.sf.Null? || f.sf != f.pf)
    && !IsFlag(ZERO, f) && !IsFlag(ONE, f)
  }

  /** The flags that only `test` writes are found as well. */
  predicate TestsResolved(f: FlagSymbols) {
    f.sf.Shared? && f.pf.Shared?
  }

  /** The flags a run needs: zf and cf as the table has them, sf and pf too when there are tests. */
  function FlagsFor(table: seq<Entry>, tests: bool): FlagSymbols {
    var f := FlagSymbolsOf(table);
    if tests then f else FlagSymbols(f.zf, f.cf, Null, Null)
  }

  /** A flag register as the register table holds it. */
  function FlagRegister(key: string): Node {
    Register(key, BIT)
  }

  /** The search for a flag goes by a part of the name; nothing else in the table may contain it. */
  ghost predicate OnlyNamed(table: seq<Entry>, part: string, n: Node) {
    forall e :: e in table && ContainsText(Name(e.symbol), part) ==> e.symbol == n
  }

  /** The table holds a flag register, and no other symbol is named like it. */
  ghost predicate Findable(table: seq<Entry>, key: string) {
    OnlyNamed(table, "_" + key, FlagRegister(key)) && exists e :: e in table && e.symbol == FlagRegister(key)
  }

  /** In a table that holds a flag register, and no other symbol named like it, the factories find it. */
  lemma {:induction false} FlagFound(table: seq<Entry>, key: string, part: string)
    requires part == "_" + key && Findable(table, key)
    ensures Lookup(table, part) == Shared(FlagRegister(key))
  {
    FlagNamed(key);
    var e :| e in table && e.symbol == FlagRegister(key);
    var k :| 0 <= k < |table| && table[k] == e;
    var i := FirstIndex(table, HasName(part));
    assert i <= k;
    assert table[i] in table;
  }

  lemma FlagNamed(key: string)
    ensures ContainsText(Name(FlagRegister(key)), "_" + key)
  {
    var name := Name(FlagRegister(key));
    assert name == "((BIT)" + ("_" + key) + ")";
    assert name[6..] == ("_" + key) + ")";
    assert "_" + key <= name[6..];
  }

  /** The flag registers are different symbols, so a table in which those that are needed are found is resolved. */
  lemma {:induction false} FlagRegistersResolve(f: FlagSymbols)
    requires f.zf == Shared(FlagRegister("zf")) && f.cf == Shared(FlagRegister("cf"))
    requires f.sf == Shared(FlagRegister("sf")) || f.sf == Null
    requires f.pf == Shared(FlagRegister("pf")) || f.pf == Null
    ensures Resolved(f) && RegisterFlags(f)
  {
    assert "zf"[0] == 'z' && "cf"[0] == 'c' && "sf"[0] == 's' && "pf"[0] == 'p';
  }

  /** Any other symbol whose name contains the flag's and whose key comes first is taken for the flag. */
  lemma {:induction false} FlagMistaken(table: seq<Entry>, key: string, n: Node)
    requires table != [] && table[0].symbol == n && ContainsText(Name(n), "_" + key)
    ensures Lookup(table, "_" + key) == Shared(n)
  {
  }

  function GroupFor(f: FlagSymbols, meaning: Meaning): seq<Instruction> {
    match meaning
    case Compares(lhs, rhs) => CompareGroup(f.zf, f.cf, lhs, rhs)
    case Tests(lhs, rhs) => TestGroup(f.zf, f.sf, f.pf, lhs, rhs)
    case Jumps(greater, destination) =>
      (if greater then GreaterGroup(f.zf, f.cf) else LessEqualGroup(f.zf, f.cf)) + [Branch(TEMP_RESULT, destination)]
    case Nothing => []
  }

  predicate PlainOperand(v: Value, f: FlagSymbols) {
    v.Shared? && !IsFlag(v, f)
  }

  /** Constants have their values, no operand of a compare or test is itself a flag, and a test finds its flags. */
  predicate PlainStep(s: Step, f: FlagSymbols) {
    && s.operands(ZERO) == 0 && s.operands(ONE) == 1
    && match s.meaning
       case Compares(lhs, rhs) => PlainOperand(lhs, f) && PlainOperand(rhs, f)
       case Tests(lhs, rhs) => PlainOperand(lhs, f) && PlainOperand(rhs, f) && TestsResolved(f)
       case _ => true
  }

  /** Only flags and temporaries were written. */
  ghost predicate Clean(store: Store, f: FlagSymbols) {
    forall v :: v in store ==> v.Local? || IsFlag(v, f)
  }

  /** The registers zf and cf hold the flags. */
  ghost predicate Related(store: Store, flags: Flags, f: FlagSymbols) {
    && Clean(store, f)
    && f.zf in store && store[f.zf] == Bit(flags.zf)
    && f.cf in store && store[f.cf] == Bit(flags.cf)
  }

  lemma RunSilent(g: seq<Instruction>, m: Machine, operands: Valuation, store: Store)
    requires g != [] && !g[0].Branch?
    ensures Run(g, m, operands, store) == Run(g[1..], m, operands, Execute(g[0], m, operands, store))
  {
    var rest := Run(g[1..], m, operands, Execute(g[0], m, operands, store));
    assert [] + rest.1 == rest.1;
  }

  lemma RunLast(i: Instruction, m: Machine, operands: Valuation, store: Store)
    ensures Run([i], m, operands, store) == (Execute(i, m, operands, store), EventOf(i, store, operands))
  {
    assert [i][1..] == [];
    assert EventOf(i, store, operands) + [] == EventOf(i, store, operands);
  }

  lemma RunTwo(a: Instruction, b: Instruction, m: Machine, operands: Valuation, store: Store)
    requires !a.Branch? && !b.Branch?
    ensures Run([a, b], m, operands, store) == (Execute(b, m, operands, Execute(a, m, operands, store)), [])
  {
    RunSilent([a, b], m, operands, store);
    assert [a, b][1..] == [b];
    RunLast(b, m, operands, Execute(a, m, operands, store));
  }

  lemma RunFour(a: Instruction, b: Instruction, c: Instruction, d: Instruction, m: Machine, operands: Valuation,
                store: Store)
    requires !a.Branch? && !b.Branch? && !c.Branch?
    ensures
      var last := Execute(c, m, operands, Execute(b, m, operands, Execute(a, m, operands, store)));
      Run([a, b, c, d], m, operands, store) == (Execute(d, m, operands, last), EventOf(d, last, operands))
  {
    var s1 := Execute(a, m, operands, store);
    var s2 := Execute(b, m, operands, s1);
    RunSilent([a, b, c, d], m, operands, store);
    assert [a, b, c, d][1..] == [b, c, d];
    RunSilent([b, c, d], m, operands, s1);
    assert [b, c, d][1..] == [c, d];
    RunSilent([c, d], m, operands, s2);
    assert [c, d][1..] == [d];
    RunLast(d, m, operands, Execute(c, m, operands, s2));
  }

  lemma {:induction false} CompareGroupRun(f: FlagSymbols, lhs: Value, rhs: Value, m: Machine, operands: Valuation,
                                           store: Store)
    requires Resolved(f) && Clean(store, f) && PlainOperand(lhs, f) && PlainOperand(rhs, f)
    ensures var (after, events) := Run(CompareGroup(f.zf, f.cf, lhs, rhs), m, operands, store);
      events == [] && Related(after, Flags(operands(lhs) == operands(rhs), m.lt(operands(lhs), operands(rhs))), f)
  {
    RunTwo(Cmp(f.zf, lhs, EQ, rhs), Cmp(f.cf, lhs, LT, rhs), m, operands, store);
  }

  lemma {:induction false} TestGroupRun(f: FlagSymbols, lhs: Value, rhs: Value, m: Machine, operands: Valuation,
                                        store: Store, flags: Flags)
    requires Resolved(f) && TestsResolved(f) && Related(store, flags, f) && operands(ZERO) == 0
    requires PlainOperand(lhs, f) && PlainOperand(rhs, f)
    ensures var (after, events) := Run(TestGroup(f.zf, f.sf, f.pf, lhs, rhs), m, operands, store);
      events == [] && Related(after, flags.(zf := m.and(operands(lhs), operands(rhs)) == 0), f) &&
      f.sf in after && after[f.sf] == m.msb(m.and(operands(lhs), operands(rhs))) &&
      f.pf in after && after[f.pf] == m.xnor(m.and(operands(lhs), operands(rhs)))
  {
    var both := m.and(operands(lhs), operands(rhs));
    var and := BinaryOperation(TEMPORARY, lhs, AND, rhs);
    var msb := UnaryInstruction(f.sf, MSB, TEMPORARY);
    var s1 := store[TEMPORARY := both];
    assert Execute(and, m, operands, store) == s1;
    var s2 := s1[f.sf := m.msb(both)];
    assert Execute(msb, m, operands, s1) == s2;
    var s3 := s2[f.zf := Bit(both == 0)];
    assert Execute(Cmp(f.zf, TEMPORARY, EQ, ZERO), m, operands, s2) == s3;
    var zero, xnor := Cmp(f.zf, TEMPORARY, EQ, ZERO), UnaryInstruction(f.pf, BitwiseXNOR, TEMPORARY);
    RunFour(and, msb, zero, xnor, m, operands, store);
  }

  lemma {:induction false} JumpGroupRun(f: FlagSymbols, greater: bool, destination: Value, m: Machine,
                                        operands: Valuation, store: Store, flags: Flags)
    requires Resolved(f) && Related(store, flags, f) && operands(ZERO) == 0 && operands(ONE) == 1 && Bitwise(m)
    ensures var (after, events) := Run(GroupFor(f, Jumps(greater, destination)), m, operands, store);
      Related(after, flags, f) &&
      events == [Event(if greater then !flags.cf && !flags.zf else flags.cf || flags.zf, destination)]
  {
    var bit, operator := if greater then ZERO else ONE, if greater then AND else OR;
    var a, b := Cmp(TEMP_RESULT, f.cf, EQ, bit), Cmp(TEMP2_RESULT, f.zf, EQ, bit);
    var c := BinaryOperation(TEMP_RESULT, TEMP2_RESULT, operator, TEMP_RESULT);
    assert GroupFor(f, Jumps(greater, destination)) == [a, b, c, Branch(TEMP_RESULT, destination)];
    var s1 := store[TEMP_RESULT := Bit(flags.cf != greater)];
    assert Execute(a, m, operands, store) == s1;
    var s2 := s1[TEMP2_RESULT := Bit(flags.zf != greater)];
    assert Execute(b, m, operands, s1) == s2;
    var s3 := s2[TEMP_RESULT := Bit(if greater then !flags.zf && !flags.cf else flags.zf || flags.cf)];
    assert Execute(c, m, operands, s2) == s3;
    TemporariesKeepFlags(store, flags, f, s1[TEMP_RESULT], s2[TEMP2_RESULT], s3[TEMP_RESULT]);
    RunFour(a, b, c, Branch(TEMP_RESULT, destination), m, operands, store);
  }

  lemma TemporariesKeepFlags(store: Store, flags: Flags, f: FlagSymbols, u: Word, v: Word, w: Word)
    requires Resolved(f) && Related(store, flags, f)
    ensures Related(store[TEMP_RESULT := u][TEMP2_RESULT := v][TEMP_RESULT := w], flags, f)
  {
  }

  lemma {:induction false} StepSimulation(f: FlagSymbols, s: Step, m: Machine, store: Store, flags: Flags)
    requires Resolved(f) && PlainStep(s, f) && Related(store, flags, f) && Bitwise(m)
    ensures
      var (after, events) := Run(GroupFor(f, s.meaning), m, s.operands, store);
      var (flags', events') := FlagStep(s, m, flags);
      events == events' && Related(after, flags', f)
  {
    match s.meaning
    case Compares(lhs, rhs) => CompareGroupRun(f, lhs, rhs, m, s.operands, store);
    case Tests(lhs, rhs) => TestGroupRun(f, lhs, rhs, m, s.operands, store, flags);
    case Jumps(greater, destination) => JumpGroupRun(f, greater, destination, m, s.operands, store, flags);
    case Nothing =>
  }

  // ----- whole runs -----

  /** The groups of a run, each executed on the operand values of its own instruction. */
  function GroupRun(f: FlagSymbols, run: seq<Step>, m: Machine, store: Store): (Store, seq<Event>) {
    if run == [] then (store, [])
    else
      var (next, events) := Run(GroupFor(f, run[0].meaning), m, run[0].operands, store);
      var (last, rest) := GroupRun(f, run[1..], m, next);
      (last, events + rest)
  }

  /** For every run the emitted IR makes the branch decisions of the flag machine, in order. */
  lemma {:induction false} IrSimulatesFlags(f: FlagSymbols, run: seq<Step>, m: Machine, store: Store, flags: Flags)
    requires Resolved(f) && Bitwise(m) && Related(store, flags, f) && forall s :: s in run ==> PlainStep(s, f)
    ensures
      var (after, events) := GroupRun(f, run, m, store);
      var (flags', events') := FlagRun(run, m, flags);
      events == events' && Related(after, flags', f)
  {
    if run != [] {
      StepSimulation(f, run[0], m, store, flags);
      var next := Run(GroupFor(f, run[0].meaning), m, run[0].operands, store).0;
      IrSimulatesFlags(f, run[1..], m, next, FlagStep(run[0], m, flags).0);
    }
  }

  // ----- the decisions, by the order of the compared values -----

  /**
   The decisions of a run in which only compares set flags: after comparing `a` with `b`
   a greater-family jump is taken iff `b` is below `a`, a less-or-equal jump iff it is not.
   */
  function Decisions(run: seq<Step>, lt: (Word, Word) -> bool, a: Word, b: Word): seq<Event> {
    if run == [] then []
    else
      match run[0].meaning
      case Compares(lhs, rhs) => Decisions(run[1..], lt, run[0].operands(lhs), run[0].operands(rhs))
      case Jumps(greater, destination) => [Event(lt(b, a) == greater, destination)] + Decisions(run[1..], lt, a, b)
      case _ => Decisions(run[1..], lt, a, b)
  }

  lemma {:induction false} FlagsDecideByOrder(run: seq<Step>, m: Machine, a: Word, b: Word)
    requires StrictTotalOrder(m.lt) && forall s :: s in run ==> !s.meaning.Tests?
    ensures FlagRun(run, m, Flags(a == b, m.lt(a, b))).1 == Decisions(run, m.lt, a, b)
  {
    if run != [] {
      var s := run[0];
      if s.meaning.Compares? {
        FlagsDecideByOrder(run[1..], m, s.operands(s.meaning.lhs), s.operands(s.meaning.rhs));
      } else {
        FlagsDecideByOrder(run[1..], m, a, b);
      }
    }
  }

  /** The decisions of the flag machine, whatever the flags were, when a run without tests starts with a compare. */
  lemma OrderDecides(run: seq<Step>, m: Machine, flags: Flags)
    requires StrictTotalOrder(m.lt) && run != [] && run[0].meaning.Compares?
    requires forall s :: s in run ==> !s.meaning.Tests?
    ensures FlagRun(run, m, flags).1 == Decisions(run, m.lt, 0, 0)
  {
    var Compares(lhs, rhs) := run[0].meaning;
    FlagsDecideByOrder(run[1..], m, run[0].operands(lhs), run[0].operands(rhs));
  }

  /** A run may start where the registers hold the flags, or anywhere with a compare. */
  ghost predicate Begins(run: seq<Step>, store: Store, flags: Flags, f: FlagSymbols) {
    Related(store, flags, f) || (Clean(store, f) && run != [] && run[0].meaning.Compares?)
  }

  /** From there the emitted IR makes the decisions of the flag machine, tests included. */
  lemma {:induction false} IrFollowsFlags(f: FlagSymbols, run: seq<Step>, m: Machine, store: Store, flags: Flags)
    requires Resolved(f) && Bitwise(m) && Begins(run, store, flags, f) && forall s :: s in run ==> PlainStep(s, f)
    ensures GroupRun(f, run, m, store).1 == FlagRun(run, m, flags).1
  {
    if Related(store, flags, f) {
      IrSimulatesFlags(f, run, m, store, flags);
    } else {
      assert PlainStep(run[0], f);
      var Compares(lhs, rhs) := run[0].meaning;
      var a, b := run[0].operands(lhs), run[0].operands(rhs);
      CompareGroupRun(f, lhs, rhs, m, run[0].operands, store);
      var next := Run(GroupFor(f, run[0].meaning), m, run[0].operands, store).0;
      IrSimulatesFlags(f, run[1..], m, next, Flags(a == b, m.lt(a, b)));
    }
  }

  /**
   The main theorem: for every run of compares and jumps that starts with a compare, from any
   store and for any strict total order read as `lt`, the emitted IR takes exactly the branches
   the order of the last compared values calls for.
   */
  lemma {:induction false} LoweringSimulates(f: FlagSymbols, run: seq<Step>, m: Machine, store: Store)
    requires Resolved(f) && Clean(store, f) && Bitwise(m) && StrictTotalOrder(m.lt)
    requires run != [] && run[0].meaning.Compares?
    requires forall s :: s in run ==> PlainStep(s, f) && !s.meaning.Tests?
    ensures GroupRun(f, run, m, store).1 == Decisions(run, m.lt, 0, 0)
  {
    IrFollowsFlags(f, run, m, store, Flags(false, false));
    OrderDecides(run, m, Flags(false, false));
  }

  // ----- the mapper's stream -----

  lemma CmpMeaning(i: Assembly, regs: Registers, table: seq<Entry>, tests: bool)
    requires i.name == "cmp" && Complete(i) && Resolved(FlagsFor(table, tests))
    ensures var meaning := MeaningOf(i, regs, AddressIndex(table));
      meaning.Compares? && EmitCompare(i, regs, table) == Emission(GroupFor(FlagsFor(table, tests), meaning), false)
  {
  }

  lemma TestMeaning(i: Assembly, regs: Registers, table: seq<Entry>, tests: bool)
    requires i.name == "test" && Complete(i)
    requires Resolved(FlagsFor(table, tests)) && TestsResolved(FlagsFor(table, tests))
    ensures var meaning := MeaningOf(i, regs, AddressIndex(table));
      meaning.Tests? && EmitCompare(i, regs, table) == Emission(GroupFor(FlagsFor(table, tests), meaning), false)
  {
    assert "test"[0] != 'c';
  }

  lemma CompareMeaning(i: Assembly, regs: Registers, table: seq<Entry>, tests: bool)
    requires Complete(i) && Resolved(FlagsFor(table, tests))
    requires i.name == "test" ==> TestsResolved(FlagsFor(table, tests))
    ensures var meaning := MeaningOf(i, regs, AddressIndex(table));
      EmitCompare(i, regs, table) ==
        if meaning.Compares? || meaning.Tests? then Emission(GroupFor(FlagsFor(table, tests), meaning), false)
        else NOTHING
  {
    if i.name == "cmp" {
      CmpMeaning(i, regs, table, tests);
    } else if i.name == "test" {
      TestMeaning(i, regs, table, tests);
    }
  }

  lemma JumpMeaning(i: Assembly, regs: Registers, table: seq<Entry>, tests: bool)
    requires Complete(i)
    ensures var meaning := MeaningOf(i, regs, AddressIndex(table));
      EmitJump(i, regs, table) ==
      if meaning.Jumps? then Emission(GroupFor(FlagsFor(table, tests), meaning), false) else NOTHING
  {
    assert i.name in GT_JUMPS || i.name in LE_JUMPS ==> i.name[0] == 'j';
    assert "cmp"[0] != 'j' && "test"[0] != 'j';
  }

  /** What the two factories together send for an instruction is the group of its meaning. */
  lemma {:induction false} EmitMeaning(c: Factory, j: Factory, i: Assembly, regs: Registers, table: seq<Entry>,
                                       tests: bool)
    requires c.react(i, table) == EmitCompare(i, regs, table) && j.react(i, table) == EmitJump(i, regs, table)
    requires Complete(i) && Resolved(FlagsFor(table, tests))
    requires i.name == "test" ==> TestsResolved(FlagsFor(table, tests))
    ensures EmitAll([c, j], i, table)
         == Emission(GroupFor(FlagsFor(table, tests), MeaningOf(i, regs, AddressIndex(table))), false)
  {
    CompareMeaning(i, regs, table, tests);
    JumpMeaning(i, regs, table, tests);
    EmitTwo(c, j, i, table);
    ThenNothing(c.react(i, table));
    ThenNothing(j.react(i, table));
  }

  lemma EmitTwo(c: Factory, j: Factory, i: Assembly, table: seq<Entry>)
    ensures EmitAll([c, j], i, table) == Then(c.react(i, table), j.react(i, table))
  {
    assert [c, j][1..] == [j] && [j][1..] == [];
    ThenNothing(j.react(i, table));
    assert EmitAll([j], i, table) == j.react(i, table);
  }

  /** An assembly instruction of a run, with what registers and memory hold at that moment. */
  datatype Moment = Moment(i: Assembly, values: Interpretation<Word>)

  function ValueOf(v: Value, values: Interpretation<Word>): Word {
    if v.Shared? then Eval(v.node, values) else 0
  }

  function OperandValues(values: Interpretation<Word>): Valuation {
    (v: Value) => ValueOf(v, values)
  }

  function Steps(run: seq<Moment>, meaning: Assembly -> Meaning): seq<Step> {
    if run == [] then []
    else [Step(meaning(run[0].i), OperandValues(run[0].values))] + Steps(run[1..], meaning)
  }

  /** What the registered factories emit for a run, each group executed on its own operand values. */
  function IrRun(fs: seq<Factory>, run: seq<Moment>, m: Machine, store: Store, table: seq<Entry>): (Store,
                 seq<Event>) {
    if run == [] then (store, [])
    else
      var group := EmitAll(fs, run[0].i, table).group;
      var (next, events) := Run(group, m, OperandValues(run[0].values), store);
      var (last, rest) := IrRun(fs, run[1..], m, next, table);
      (last, events + rest)
  }

  lemma {:induction false} IrRunIsGroupRun(fs: seq<Factory>, run: seq<Moment>, meaning: Assembly -> Meaning,
                                           f: FlagSymbols, m: Machine, store: Store, table: seq<Entry>)
    requires forall x :: x in run ==> EmitAll(fs, x.i, table) == Emission(GroupFor(f, meaning(x.i)), false)
    ensures IrRun(fs, run, m, store, table) == GroupRun(f, Steps(run, meaning), m, store)
  {
    if run != [] {
      assert Steps(run, meaning)[1..] == Steps(run[1..], meaning);
      var group := EmitAll(fs, run[0].i, table).group;
      var next := Run(group, m, OperandValues(run[0].values), store).0;
      IrRunIsGroupRun(fs, run[1..], meaning, f, m, next, table);
    }
  }

  /** A run with one instruction in front. */
  lemma RunHead(g: seq<Instruction>, m: Machine, operands: Valuation, store: Store, last: Store, events: seq<Event>)
    requires g != [] && Run(g[1..], m, operands, Execute(g[0], m, operands, store)) == (last, events)
    ensures Run(g, m, operands, store) == (last, EventOf(g[0], store, operands) + events)
  {
  }

  /** Two groups in a row, given where the first one leads. */
  lemma {:induction false} RunBoth(g: seq<Instruction>, h: seq<Instruction>, m: Machine, operands: Valuation,
                                   store: Store,
                                   middle: Store, events: seq<Event>, last: Store, rest: seq<Event>)
    requires Run(g, m, operands, store) == (middle, events) && Run(h, m, operands, middle) == (last, rest)
    ensures Run(g + h, m, operands, store) == (last, events + rest)
  {
    if g == [] {
      assert g + h == h;
      assert [] + rest == rest;
    } else {
      var first := Execute(g[0], m, operands, store);
      var later := Run(g[1..], m, operands, first).1;
      RunBoth(g[1..], h, m, operands, first, middle, later, last, rest);
      RestOfBoth(g, h);
      RunHead(g + h, m, operands, store, last, later + rest);
      Associative(EventOf(g[0], store, operands), later, rest);
    }
  }

  lemma RestOfBoth<T>(g: seq<T>, h: seq<T>)
    requires g != []
    ensures (g + h)[0] == g[0] && (g + h)[1..] == g[1..] + h
  {
  }

  lemma Associative<T>(a: seq<T>, b: seq<T>, c: seq<T>)
    ensures (a + b) + c == a + (b + c)
  {
  }

  lemma {:induction false} RunAppend(g: seq<Instruction>, h: seq<Instruction>, m: Machine, operands: Valuation,
                                     store: Store)
    ensures var (middle, events) := Run(g, m, operands, store);
      var (last, rest) := Run(h, m, operands, middle);
      Run(g + h, m, operands, store) == (last, events + rest)
  {
    var (middle, events) := Run(g, m, operands, store);
    var (last, rest) := Run(h, m, operands, middle);
    RunBoth(g, h, m, operands, store, middle, events, last, rest);
  }

  function Moments(stream: seq<Assembly>, values: Interpretation<Word>): seq<Moment> {
    if stream == [] then [] else [Moment(stream[0], values)] + Moments(stream[1..], values)
  }

  /** The flat stream the mapper creates runs like its groups one after the other. */
  lemma {:induction false} LowerRuns(fs: seq<Factory>, stream: seq<Assembly>, m: Machine,
                                     values: Interpretation<Word>, store: Store, table: seq<Entry>)
    requires forall i :: i in stream ==> !EmitAll(fs, i, table).failed
    ensures !Lower(fs, stream, table).failed
    ensures Run(Lower(fs, stream, table).group, m, OperandValues(values), store)
         == IrRun(fs, Moments(stream, values), m, store, table)
  {
    if stream != [] {
      var group, operands := EmitAll(fs, stream[0], table).group, OperandValues(values);
      assert Moments(stream, values)[1..] == Moments(stream[1..], values);
      RunAppend(group, Lower(fs, stream[1..], table).group, m, operands, store);
      LowerRuns(fs, stream[1..], m, values, Run(group, m, operands, store).0, table);
    }
  }

  // ----- the decisions of the source program -----

  /** The meaning of instructions with known addresses resolved, or - under the empty map - as they are written. */
  function MeaningIn(regs: Registers, functions: Functions): Assembly -> Meaning {
    (i: Assembly) => MeaningOf(i, regs, functions)
  }

  function ResolveOperand(v: Value, functions: Functions): Value {
    if v.Shared? then Shared(Resolve(v.node, functions)) else v
  }

  function ResolveMeaning(meaning: Meaning, functions: Functions): Meaning {
    match meaning
    case Compares(lhs, rhs) => Compares(ResolveOperand(lhs, functions), ResolveOperand(rhs, functions))
    case Tests(lhs, rhs) => Tests(ResolveOperand(lhs, functions), ResolveOperand(rhs, functions))
    case _ => meaning
  }

  lemma MeaningResolves(i: Assembly, regs: Registers, functions: Functions)
    ensures MeaningOf(i, regs, functions) == ResolveMeaning(MeaningOf(i, regs, NO_FUNCTIONS), functions)
  {
    if i.name == "cmp" || i.name == "test" {
      if |i.args| >= 2 {
        ResolveCommutes(i.args[0], regs, functions);
        ResolveCommutes(i.args[1], regs, functions);
      }
    }
  }

  predicate OperandKept(v: Value, functions: Functions) {
    v.Shared? ==> Kept(v.node, functions)
  }

  /** Resolution keeps what the operands are worth. */
  predicate MeaningKept(meaning: Meaning, functions: Functions) {
    match meaning
    case Compares(lhs, rhs) => OperandKept(lhs, functions) && OperandKept(rhs, functions)
    case Tests(lhs, rhs) => OperandKept(lhs, functions) && OperandKept(rhs, functions)
    case _ => true
  }

  lemma OperandKeeps(v: Value, functions: Functions, values: Interpretation<Word>)
    requires OperandKept(v, functions)
    ensures ValueOf(ResolveOperand(v, functions), values) == ValueOf(v, values)
  {
    if v.Shared? {
      ResolutionKeeps(v.node, functions, values);
    }
  }

  /** All flags that are looked up are registers. */
  predicate RegisterFlags(f: FlagSymbols) {
    forall v :: v in [f.zf, f.cf, f.sf, f.pf] ==> v.Null? || (v.Shared? && v.node.Register?)
  }

  lemma KeptOperandPlain(v: Value, functions: Functions, f: FlagSymbols)
    requires PlainOperand(v, f) && OperandKept(v, functions) && RegisterFlags(f)
    ensures PlainOperand(ResolveOperand(v, functions), f)
  {
    var n := Resolve(v.node, functions);
    if n.Register? {
      assert n == v.node;
    }
    assert forall w :: IsFlag(w, f) ==> w in [f.zf, f.cf, f.sf, f.pf];
  }

  /** Two steps that do the same: the same kind, on operands of the same values. */
  predicate SameStep(s: Step, t: Step) {
    match s.meaning
    case Compares(lhs, rhs) =>
      && t.meaning.Compares?
      && s.operands(lhs) == t.operands(t.meaning.lhs) && s.operands(rhs) == t.operands(t.meaning.rhs)
    case Tests(lhs, rhs) =>
      && t.meaning.Tests?
      && s.operands(lhs) == t.operands(t.meaning.lhs) && s.operands(rhs) == t.operands(t.meaning.rhs)
    case Jumps(_, _) => t.meaning == s.meaning
    case Nothing => t.meaning.Nothing?
  }

  lemma KeptStep(meaning: Meaning, functions: Functions, values: Interpretation<Word>, f: FlagSymbols)
    requires MeaningKept(meaning, functions) && RegisterFlags(f) && PlainStep(Step(meaning, OperandValues(values)), f)
    ensures var resolved := Step(ResolveMeaning(meaning, functions), OperandValues(values));
      PlainStep(resolved, f) && SameStep(resolved, Step(meaning, OperandValues(values)))
  {
    if meaning.Compares? || meaning.Tests? {
      OperandKeeps(meaning.lhs, functions, values);
      OperandKeeps(meaning.rhs, functions, values);
      KeptOperandPlain(meaning.lhs, functions, f);
      KeptOperandPlain(meaning.rhs, functions, f);
    }
  }

  ghost predicate SameSteps(s: seq<Step>, t: seq<Step>) {
    |s| == |t| && forall k :: 0 <= k < |s| ==> SameStep(s[k], t[k])
  }

  lemma {:induction false} SameFlagRun(s: seq<Step>, t: seq<Step>, m: Machine, flags: Flags)
    requires SameSteps(s, t)
    ensures FlagRun(s, m, flags) == FlagRun(t, m, flags)
  {
    if s != [] {
      assert SameStep(s[0], t[0]);
      assert forall k :: 0 <= k < |s[1..]| ==> SameStep(s[1..][k], t[1..][k]);
      SameFlagRun(s[1..], t[1..], m, FlagStep(s[0], m, flags).0);
    }
  }

  /** What a run must be like: complete instructions, and plain operands that resolution keeps. */
  ghost predicate Faithful(x: Moment, regs: Registers, table: seq<Entry>, f: FlagSymbols) {
    var meaning := MeaningIn(regs, NO_FUNCTIONS)(x.i);
    && Complete(x.i) && MeaningKept(meaning, AddressIndex(table))
    && PlainStep(Step(meaning, OperandValues(x.values)), f)
  }

  lemma FaithfulTests(x: Moment, regs: Registers, table: seq<Entry>, f: FlagSymbols)
    requires Faithful(x, regs, table, f)
    ensures x.i.name == "test" ==> TestsResolved(f)
  {
    assert x.i.name == "test" ==> MeaningOf(x.i, regs, NO_FUNCTIONS).Tests?;
  }

  lemma FaithfulStep(x: Moment, regs: Registers, table: seq<Entry>, f: FlagSymbols)
    requires Faithful(x, regs, table, f) && RegisterFlags(f)
    ensures
      var operands := OperandValues(x.values);
      var emitted := Step(MeaningIn(regs, AddressIndex(table))(x.i), operands);
      PlainStep(emitted, f) && SameStep(emitted, Step(MeaningIn(regs, NO_FUNCTIONS)(x.i), operands))
  {
    MeaningResolves(x.i, regs, AddressIndex(table));
    KeptStep(MeaningOf(x.i, regs, NO_FUNCTIONS), AddressIndex(table), x.values, f);
  }

  lemma {:induction false} StepsAt(run: seq<Moment>, meaning: Assembly -> Meaning)
    ensures |Steps(run, meaning)| == |run|
    ensures forall k :: 0 <= k < |run| ==>
      Steps(run, meaning)[k] == Step(meaning(run[k].i), OperandValues(run[k].values))
  {
    if run != [] {
      StepsAt(run[1..], meaning);
    }
  }

  lemma FaithfulSteps(run: seq<Moment>, regs: Registers, table: seq<Entry>, f: FlagSymbols)
    requires RegisterFlags(f) && forall x :: x in run ==> Faithful(x, regs, table, f)
    ensures
      var emitted := Steps(run, MeaningIn(regs, AddressIndex(table)));
      && SameSteps(emitted, Steps(run, MeaningIn(regs, NO_FUNCTIONS)))
      && forall s :: s in emitted ==> PlainStep(s, f)
  {
    StepsAt(run, MeaningIn(regs, AddressIndex(table)));
    StepsAt(run, MeaningIn(regs, NO_FUNCTIONS));
    forall k | 0 <= k < |run| {
      FaithfulStep(run[k], regs, table, f);
    }
  }

  /** Both factories are there, whatever the identity of the objects. */
  ghost predicate React(c: Factory, j: Factory, i: Assembly, regs: Registers, table: seq<Entry>) {
    c.react(i, table) == EmitCompare(i, regs, table) && j.react(i, table) == EmitJump(i, regs, table)
  }

  lemma EmittedSteps(c: Factory, j: Factory, run: seq<Moment>, m: Machine, store: Store, regs: Registers,
                     table: seq<Entry>, tests: bool)
    requires Resolved(FlagsFor(table, tests))
    requires forall x :: x in run ==> React(c, j, x.i, regs, table) && Faithful(x, regs, table, FlagsFor(table, tests))
    ensures IrRun([c, j], run, m, store, table)
         == GroupRun(FlagsFor(table, tests), Steps(run, MeaningIn(regs, AddressIndex(table))), m, store)
  {
    var meaning, f := MeaningIn(regs, AddressIndex(table)), FlagsFor(table, tests);
    forall x | x in run
      ensures EmitAll([c, j], x.i, table) == Emission(GroupFor(f, meaning(x.i)), false)
    {
      FaithfulTests(x, regs, table, f);
      EmitMeaning(c, j, x.i, regs, table, tests);
    }
    IrRunIsGroupRun([c, j], run, meaning, f, m, store, table);
  }

  /** The program as it is written: its operands read without the symbol table and evaluated. */
  function Source(run: seq<Moment>, regs: Registers): seq<Step> {
    Steps(run, MeaningIn(regs, NO_FUNCTIONS))
  }

  /**
   Branch decisions are those of the flag machine over a program; in a program without tests that starts with
   a compare they follow the order of the last compared values.
   */
  ghost predicate Decided(events: seq<Event>, source: seq<Step>, m: Machine, flags: Flags) {
    && events == FlagRun(source, m, flags).1
    && (StrictTotalOrder(m.lt) && ComparesOnly(source) ==> events == Decisions(source, m.lt, 0, 0))
  }

  ghost predicate ComparesOnly(source: seq<Step>) {
    source != [] && source[0].meaning.Compares? && forall s :: s in source ==> !s.meaning.Tests?
  }

  lemma FlagRunDecided(source: seq<Step>, m: Machine, flags: Flags)
    ensures Decided(FlagRun(source, m, flags).1, source, m, flags)
  {
    if StrictTotalOrder(m.lt) && ComparesOnly(source) {
      OrderDecides(source, m, flags);
    }
  }

  lemma BeginsAlike(s: seq<Step>, t: seq<Step>, store: Store, flags: Flags, f: FlagSymbols)
    requires SameSteps(s, t) && Begins(t, store, flags, f)
    ensures Begins(s, store, flags, f)
  {
    assert s != [] ==> SameStep(s[0], t[0]);
  }

  /**
   The lowering theorem for the mapper, against the source as it is written: operands are read without the
   symbol table and evaluated, under any interpretation - so also one in which numerals mean their numbers -
   and registers and memory may change between instructions. Only a run with tests needs sf and pf.
   */
  lemma {:induction false} MapperSimulates(c: Factory, j: Factory, run: seq<Moment>, m: Machine, store: Store,
                                           flags: Flags, regs: Registers, table: seq<Entry>, tests: bool)
    requires forall x :: x in run ==> React(c, j, x.i, regs, table) && Faithful(x, regs, table, FlagsFor(table, tests))
    requires Resolved(FlagsFor(table, tests)) && RegisterFlags(FlagsFor(table, tests)) && Bitwise(m)
    requires Begins(Source(run, regs), store, flags, FlagsFor(table, tests))
    ensures Decided(IrRun([c, j], run, m, store, table).1, Source(run, regs), m, flags)
  {
    var emitted, f := Steps(run, MeaningIn(regs, AddressIndex(table))), FlagsFor(table, tests);
    FaithfulSteps(run, regs, table, f);
    EmittedSteps(c, j, run, m, store, regs, table, tests);
    SameFlagRun(emitted, Source(run, regs), m, flags);
    BeginsAlike(emitted, Source(run, regs), store, flags, f);
    IrFollowsFlags(f, emitted, m, store, flags);
    FlagRunDecided(Source(run, regs), m, flags);
  }

  /** A register that is no flag, and whose key is no numeral. */
  predicate PlainRegister(key: string, regs: Registers, f: FlagSymbols) {
    key in regs && !IsHexNumber(key) && !IsFlag(Shared(Register(key, regs[key])), f)
  }

  lemma PlainRegisterOperand(key: string, regs: Registers, functions: Functions, f: FlagSymbols)
    requires PlainRegister(key, regs, f)
    ensures var v := Shared(Parse(key, regs, NO_FUNCTIONS)); OperandKept(v, functions) && PlainOperand(v, f)
  {
    ParseByShape(key, regs, NO_FUNCTIONS);
    assert Parse(key, regs, NO_FUNCTIONS) == Register(key, regs[key]);
  }

  lemma ConstantsMean(values: Interpretation<Word>)
    requires values.constant(0) == 0 && values.constant(1) == 1
    ensures OperandValues(values)(ZERO) == 0 && OperandValues(values)(ONE) == 1
  {
    assert HexValue("0") == HexValue("") * 16 && HexValue("1") == HexValue("") * 16 + 1;
  }

  /** Compares and tests of registers qualify, whatever the registers hold. */
  lemma {:induction false} RegistersFaithful(i: Assembly, values: Interpretation<Word>, regs: Registers,
                                             table: seq<Entry>, f: FlagSymbols)
    requires (i.name == "cmp" || (i.name == "test" && TestsResolved(f))) && |i.args| == 2 && Numeric(values)
    requires forall arg :: arg in i.args ==> PlainRegister(arg, regs, f)
    ensures Faithful(Moment(i, values), regs, table, f)
  {
    PlainRegisterOperand(i.args[0], regs, AddressIndex(table), f);
    PlainRegisterOperand(i.args[1], regs, AddressIndex(table), f);
    ConstantsMean(values);
    assert i.name !in GT_JUMPS && i.name !in LE_JUMPS by {
      assert i.name[0] != 'j';
    }
  }

  lemma {:induction false} MomentsMembers(stream: seq<Assembly>, values: Interpretation<Word>)
    ensures |Moments(stream, values)| == |stream|
    ensures forall k :: 0 <= k < |stream| ==> Moments(stream, values)[k] == Moment(stream[k], values)
  {
    if stream != [] {
      MomentsMembers(stream[1..], values);
    }
  }

  /** No instruction of a complete stream makes a factory throw, and the order of the two does not matter. */
  lemma StreamEmits(fs: seq<Factory>, c: Factory, j: Factory, stream: seq<Assembly>, regs: Registers,
                    table: seq<Entry>, tests: bool)
    requires multiset(fs) == multiset([c, j]) && Resolved(FlagsFor(table, tests))
    requires forall i :: i in stream ==>
      React(c, j, i, regs, table) && Complete(i) && (i.name == "test" ==> TestsResolved(FlagsFor(table, tests)))
    ensures Lower(fs, stream, table) == Lower([c, j], stream, table)
    ensures forall i :: i in stream ==> !EmitAll([c, j], i, table).failed
  {
    forall i | i in stream
      ensures Exclusive([c, j], i, table) && !EmitAll([c, j], i, table).failed
    {
      FactoriesExclusive([c, j], i, regs, table);
      EmitMeaning(c, j, i, regs, table, tests);
    }
    RegistrationOrderIrrelevant(fs, [c, j], stream, table);
  }

  /** The same for the flat stream the mapper creates, whichever factory was registered first. */
  lemma {:induction false} CreatedStreamSimulates(fs: seq<Factory>, c: Factory, j: Factory, stream: seq<Assembly>,
                                                  m: Machine, values: Interpretation<Word>, store: Store,
                                                  flags: Flags, regs: Registers, table: seq<Entry>, tests: bool)
    requires multiset(fs) == multiset([c, j])
    requires forall i :: i in stream ==>
      React(c, j, i, regs, table) && Faithful(Moment(i, values), regs, table, FlagsFor(table, tests))
    requires Resolved(FlagsFor(table, tests)) && RegisterFlags(FlagsFor(table, tests)) && Bitwise(m)
    requires Begins(Source(Moments(stream, values), regs), store, flags, FlagsFor(table, tests))
    ensures !Lower(fs, stream, table).failed
    ensures Decided(Run(Lower(fs, stream, table).group, m, OperandValues(values), store).1,
                    Source(Moments(stream, values), regs), m, flags)
  {
    var run := Moments(stream, values);
    MomentsMembers(stream, values);
    forall x | x in run ensures x.i in stream && x == Moment(x.i, values) {
      var k :| 0 <= k < |run| && run[k] == x;
    }
    forall i | i in stream ensures i.name == "test" ==> TestsResolved(FlagsFor(table, tests)) {
      FaithfulTests(Moment(i, values), regs, table, FlagsFor(table, tests));
    }
    StreamEmits(fs, c, j, stream, regs, table, tests);
    LowerRuns([c, j], stream, m, values, store, table);
    MapperSimulates(c, j, run, m, store, flags, regs, table, tests);
  }

  /** The table holds the flag registers that are needed, and no other symbol is named like one of them. */
  ghost predicate FlagsFindable(table: seq<Entry>, tests: bool) {
    && Findable(table, "zf") && Findable(table, "cf")
    && (tests ==> Findable(table, "sf") && Findable(table, "pf"))
  }

  lemma ZeroAndCarryFound(table: seq<Entry>)
    requires Findable(table, "zf") && Findable(table, "cf")
    ensures Lookup(table, "_zf") == Shared(FlagRegister("zf")) && Lookup(table, "_cf") == Shared(FlagRegister("cf"))
  {
    FlagFound(table, "zf", "_zf");
    FlagFound(table, "cf", "_cf");
  }

  lemma SignAndParityFound(table: seq<Entry>)
    requires Findable(table, "sf") && Findable(table, "pf")
    ensures Lookup(table, "_sf") == Shared(FlagRegister("sf")) && Lookup(table, "_pf") == Shared(FlagRegister("pf"))
  {
    FlagFound(table, "sf", "_sf");
    FlagFound(table, "pf", "_pf");
  }

  lemma FlagsFound(table: seq<Entry>, tests: bool)
    requires FlagsFindable(table, tests)
    ensures Resolved(FlagsFor(table, tests)) && RegisterFlags(FlagsFor(table, tests))
  {
    ZeroAndCarryFound(table);
    if tests {
      SignAndParityFound(table);
    }
    FlagRegistersResolve(FlagsFor(table, tests));
  }

  lemma FactoriesReact(regs: Registers, table: seq<Entry>, i: Assembly)
    ensures React(CompareFactory(0, regs), JumpFactory(1, regs), i, regs, table)
  {
  }

  /**
   The same with nothing left open: the two factories of the source, in either order, over a table that holds
   zf and cf - and sf and pf, if there are tests - and in which every resolved operand keeps its value.
   */
  lemma {:induction false} RegisteredFactoriesSimulate(fs: seq<Factory>, stream: seq<Assembly>, m: Machine,
                                                       values: Interpretation<Word>, store: Store, flags: Flags,
                                                       regs: Registers, table: seq<Entry>, tests: bool)
    requires multiset(fs) == multiset([CompareFactory(0, regs), JumpFactory(1, regs)])
    requires FlagsFindable(table, tests) && Bitwise(m)
    requires Begins(Source(Moments(stream, values), regs), store, flags, FlagsFor(table, tests))
    requires forall i :: i in stream ==> Faithful(Moment(i, values), regs, table, FlagsFor(table, tests))
    ensures !Lower(fs, stream, table).failed
    ensures Decided(Run(Lower(fs, stream, table).group, m, OperandValues(values), store).1,
                    Source(Moments(stream, values), regs), m, flags)
  {
    var c, j := CompareFactory(0, regs), JumpFactory(1, regs);
    FlagsFound(table, tests);
    forall i | i in stream ensures React(c, j, i, regs, table) {
      FactoriesReact(regs, table, i);
    }
    CreatedStreamSimulates(fs, c, j, stream, m, values, store, flags, regs, table, tests);
  }

  // ----- the two orders of the processor -----

  predicate UnsignedLess(a: Word, b: Word) {
    a < b
  }

  /** The value of a word in two's complement. */
  function SignedValue(a: Word): int {
    if a < TWO_TO_THE_64 / 2 then a else a - TWO_TO_THE_64
  }

  predicate SignedLess(a: Word, b: Word) {
    SignedValue(a) < SignedValue(b)
  }

  /** Both orders qualify: `ja` is taken iff the first operand is above the second unsigned, `jg` signed. */
  lemma {:induction false} ProcessorOrders()
    ensures StrictTotalOrder(UnsignedLess) && StrictTotalOrder(SignedLess)
  {
  }

  // ----- where the lowering departs from the processor -----

  /**
   The processor clears cf on `test`, the emitted IR keeps the old one: a jump right after a
   `test` decides as on the processor exactly when cf was clear or the operands have no common bit.
   */
  lemma {:induction false} JumpAfterTest(test: Step, jump: Step, m: Machine, flags: Flags)
    requires test.meaning.Tests? && jump.meaning.Jumps?
    ensures
      var common := m.and(test.operands(test.meaning.lhs), test.operands(test.meaning.rhs));
      FlagRun([test, jump], m, flags).1 == FlagStep(jump, m, Flags(common == 0, false)).1 <==> !flags.cf || common == 0
  {
    var after := FlagStep(test, m, flags).0;
    assert [test, jump][1..] == [jump] && [jump][1..] == [];
    assert FlagRun([jump], m, after).1 == FlagStep(jump, m, after).1;
    assert FlagRun([test, jump], m, flags).1 == FlagStep(jump, m, after).1;
    var here := FlagStep(jump, m, after).1[0];
    var processor := FlagStep(jump, m, Flags(after.zf, false)).1[0];
    assert here.taken == processor.taken <==> !flags.cf || after.zf;
  }

  const EAX := Shared(Register("eax", DWORD))
  const EBX := Shared(Register("ebx", DWORD))

  /** `eax` holds 0 and `ebx` holds 1. */
  function ZeroAndOne(v: Value): Word {
    if v == EAX then 0 else 1
  }

  /** After `cmp eax,ebx` and `test ebx,ebx` with 0 in eax and 1 in ebx, `ja` is not taken; with cf cleared it is. */
  lemma {:induction false} JumpAfterTestDeparts(m: Machine, destination: Value)
    requires Bitwise(m) && m.lt(0, 1)
    ensures
      var ja := Step(Jumps(true, destination), ZeroAndOne);
      var run := [Step(Compares(EAX, EBX), ZeroAndOne), Step(Tests(EBX, EBX), ZeroAndOne), ja];
      && FlagRun(run, m, Flags(false, false)).1 == [Event(false, destination)]
      && FlagStep(ja, m, Flags(m.and(1, 1) == 0, false)).1 == [Event(true, destination)]
  {
    assert m.and(Bit(true), Bit(true)) == Bit(true);
    var cmp, test := Step(Compares(EAX, EBX), ZeroAndOne), Step(Tests(EBX, EBX), ZeroAndOne);
    var ja := Step(Jumps(true, destination), ZeroAndOne);
    var run := [cmp, test, ja];
    assert run[1..] == [test, ja] && [test, ja][1..] == [ja] && [ja][1..] == [];
    assert FlagRun([ja], m, Flags(false, true)).1 == [Event(false, destination)];
    assert FlagRun([test, ja], m, Flags(false, true)).1 == [Event(false, destination)];
  }

  /** The compare group leaves in zf and cf the comparison of the values its operands had before it. */
  ghost predicate ComparesCorrectly(f: FlagSymbols, lhs: Value, rhs: Value, m: Machine, operands: Valuation,
                                    store: Store) {
    var a, b := Read(lhs, store, operands), Read(rhs, store, operands);
    var after := Run(CompareGroup(f.zf, f.cf, lhs, rhs), m, operands, store).0;
    f.zf in after && f.cf in after && after[f.zf] == Bit(a == b) && after[f.cf] == Bit(m.lt(a, b))
  }

  /**
   The group writes zf before it reads its operands again, so it is right on every store exactly
   when zf is no operand, or both operands are the same symbol.
   */
  lemma {:induction false} CompareGroupExact(f: FlagSymbols, lhs: Value, rhs: Value, m: Machine, operands: Valuation)
    requires f.zf != f.cf && StrictTotalOrder(m.lt)
    ensures (forall store :: ComparesCorrectly(f, lhs, rhs, m, operands, store))
      <==> lhs == rhs || (lhs != f.zf && rhs != f.zf)
  {
    if lhs == rhs || (lhs != f.zf && rhs != f.zf) {
      forall store ensures ComparesCorrectly(f, lhs, rhs, m, operands, store) {
        CompareGroupStores(f, lhs, rhs, m, operands, store);
      }
    } else {
      var (z, v) := Misread(lhs == f.zf, m.lt);
      var store: Store := map[f.zf := z, (if lhs == f.zf then rhs else lhs) := v];
      CompareGroupStores(f, lhs, rhs, m, operands, store);
      assert !ComparesCorrectly(f, lhs, rhs, m, operands, store);
    }
  }

  lemma CompareGroupStores(f: FlagSymbols, lhs: Value, rhs: Value, m: Machine, operands: Valuation, store: Store)
    ensures var s := store[f.zf := Bit(Read(lhs, store, operands) == Read(rhs, store, operands))];
      Run(CompareGroup(f.zf, f.cf, lhs, rhs), m, operands, store).0
      == s[f.cf := Bit(m.lt(Read(lhs, s, operands), Read(rhs, s, operands)))]
  {
    RunTwo(Cmp(f.zf, lhs, EQ, rhs), Cmp(f.cf, lhs, LT, rhs), m, operands, store);
  }

  /** Two different values that compare otherwise once the first is replaced by zero. */
  ghost function Misread(left: bool, lt: (Word, Word) -> bool): (r: (Word, Word))
    requires StrictTotalOrder(lt)
    ensures r.0 != r.1
    ensures if left then lt(0, r.1) != lt(r.0, r.1) else lt(r.1, 0) != lt(r.1, r.0)
  {
    if left then
      if lt(1, 0) then (1, 0)
      else if lt(2, 0) then (2, 0)
      else if lt(1, 2) then (2, 1)
      else (1, 2)
    else
      if lt(0, 1) then (1, 0)
      else if lt(0, 2) then (2, 0)
      else if lt(1, 2) then (1, 2)
      else (2, 1)
  }
}
