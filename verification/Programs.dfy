/**
 Short programs through the mapper with its two factories, spelled out: which mnemonic decides how, which text is
 which operand, and what the flag registers hold afterwards.
 */
module Programs {
  import opened Wrappers
  import opened Patterns
  import opened Texts
  import opened Nodes
  import opened Decoder
  import opened Operands
  import opened SymbolTable
  import opened Ir
  import opened Mapper
  import opened Lowering
  import opened Simulation

  /** The table has the symbol, and no other symbol whose name contains the text. */
  ghost predicate OnlyHolds(table: seq<Entry>, text: string, n: Node) {
    && (exists e :: e in table && e.symbol == n)
    && forall e :: e in table && ContainsText(Name(e.symbol), text) ==> e.symbol == n
  }

  /** The table has zf and cf. */
  ghost predicate HoldsFlags(table: seq<Entry>) {
    OnlyHolds(table, "_zf", Register("zf", BIT)) && OnlyHolds(table, "_cf", Register("cf", BIT))
  }

  /** And what only `test` needs. */
  ghost predicate HoldsTestFlags(table: seq<Entry>) {
    OnlyHolds(table, "_sf", Register("sf", BIT)) && OnlyHolds(table, "_pf", Register("pf", BIT))
  }

  /** What an operand text is worth: read without any table and evaluated. */
  function Worth(text: string, regs: Registers, values: Interpretation<Word>): Word {
    Eval(Parse(text, regs, map[]), values)
  }

  /** An operand whose value the address lookup keeps, and that is no flag itself. */
  predicate Plain(text: string, regs: Registers, table: seq<Entry>) {
    var n := Parse(text, regs, map[]);
    && Kept(n, AddressIndex(table))
    && n != Register("zf", BIT) && n != Register("cf", BIT) && n != Register("sf", BIT) && n != Register("pf", BIT)
  }

  /** Numerals 0 and 1 mean themselves. */
  predicate Sane(values: Interpretation<Word>) {
    values.constant(0) == 0 && values.constant(1) == 1
  }

  /** Both factories, in either order. */
  ghost predicate Registered(fs: seq<Factory>, regs: Registers) {
    multiset(fs) == multiset([CompareFactory(0, regs), JumpFactory(1, regs)])
  }

  function Outputs(fs: seq<Factory>, stream: seq<Assembly>, m: Machine, values: Interpretation<Word>, store: Store,
                   table: seq<Entry>): (Store, seq<Event>) {
    Run(Lower(fs, stream, table).group, m, OperandValues(values), store)
  }

  // ----- the hypotheses, in the terms of the theorems -----

  lemma HeldFindable(table: seq<Entry>)
    requires HoldsFlags(table)
    ensures FlagsFindable(table, false) && (HoldsTestFlags(table) ==> FlagsFindable(table, true))
  {
    assert "_" + "zf" == "_zf" && "_" + "cf" == "_cf" && "_" + "sf" == "_sf" && "_" + "pf" == "_pf";
  }

  lemma FlagsAre(table: seq<Entry>, tests: bool)
    requires FlagsFindable(table, tests)
    ensures var f := FlagsFor(table, tests);
      && f.zf == Shared(Register("zf", BIT)) && f.cf == Shared(Register("cf", BIT))
      && (tests ==> f.sf == Shared(Register("sf", BIT)) && f.pf == Shared(Register("pf", BIT)))
      && (!tests ==> f.sf == Null && f.pf == Null)
  {
    ZeroAndCarryFound(table);
    if tests {
      SignAndParityFound(table);
    }
  }

  lemma PlainFits(text: string, regs: Registers, table: seq<Entry>, tests: bool)
    requires Plain(text, regs, table) && FlagsFindable(table, tests)
    ensures var v := Shared(Parse(text, regs, NO_FUNCTIONS));
      OperandKept(v, AddressIndex(table)) && PlainOperand(v, FlagsFor(table, tests))
  {
    FlagsAre(table, tests);
  }

  lemma CompareFits(i: Assembly, values: Interpretation<Word>, regs: Registers, table: seq<Entry>, tests: bool)
    requires i.name == "cmp" || (i.name == "test" && tests)
    requires |i.args| >= 2 && Plain(i.args[0], regs, table) && Plain(i.args[1], regs, table)
    requires FlagsFindable(table, tests) && Sane(values)
    ensures AllFit([i], values, regs, table, tests)
  {
    assert i.name[0] != 'j';
    ConstantsMean(values);
    FlagsAre(table, tests);
    PlainFits(i.args[0], regs, table, tests);
    PlainFits(i.args[1], regs, table, tests);
    OneFits(i, values, regs, table, tests);
  }

  lemma OtherFits(i: Assembly, values: Interpretation<Word>, regs: Registers, table: seq<Entry>, tests: bool)
    requires i.name != "cmp" && i.name != "test" && i.args != [] && Sane(values)
    ensures Faithful(Moment(i, values), regs, table, FlagsFor(table, tests))
  {
    ConstantsMean(values);
  }

  // ----- the meaning of the mnemonics -----

  lemma CmpMeans(a: string, b: string, p: nat, regs: Registers)
    ensures MeaningIn(regs, NO_FUNCTIONS)(Assembly("cmp", [a, b], p))
         == Compares(Shared(Parse(a, regs, map[])), Shared(Parse(b, regs, map[])))
  {
    assert "cmp"[0] != 'j';
  }

  lemma TestMeans(a: string, b: string, p: nat, regs: Registers)
    ensures MeaningIn(regs, NO_FUNCTIONS)(Assembly("test", [a, b], p))
         == Tests(Shared(Parse(a, regs, map[])), Shared(Parse(b, regs, map[])))
  {
    assert "test"[0] != 'j' && "test"[0] != 'c';
  }

  predicate Greater(name: string) {
    name in ["ja", "jg", "jnbe", "jnle"]
  }

  predicate LessOrEqual(name: string) {
    name in ["jbe", "jle", "jna", "jng"]
  }

  predicate Conditional(name: string) {
    Greater(name) || LessOrEqual(name)
  }

  lemma GreaterFamily(name: string)
    requires Greater(name)
    ensures name in GT_JUMPS && name != "cmp" && name != "test" && !LessOrEqual(name)
  {
    assert name[0] == 'j';
  }

  lemma LessOrEqualFamily(name: string)
    requires LessOrEqual(name)
    ensures name in LE_JUMPS && name !in GT_JUMPS && name != "cmp" && name != "test" && !Greater(name)
  {
    assert name[0] == 'j';
  }

  lemma JumpMeans(name: string, t: string, q: nat, regs: Registers)
    requires Conditional(name)
    ensures MeaningIn(regs, NO_FUNCTIONS)(Assembly(name, [t], q)) == Jumps(Greater(name), Shared(Parse(t, regs, map[])))
  {
    if Greater(name) {
      GreaterFamily(name);
    } else {
      LessOrEqualFamily(name);
    }
  }

  // ----- the source of short streams -----

  lemma SourceAt(stream: seq<Assembly>, values: Interpretation<Word>, regs: Registers)
    ensures var source := Source(Moments(stream, values), regs);
      && |source| == |stream|
      && forall k :: 0 <= k < |stream| ==>
        source[k] == Step(MeaningIn(regs, NO_FUNCTIONS)(stream[k]), OperandValues(values))
  {
    MomentsMembers(stream, values);
    StepsAt(Moments(stream, values), MeaningIn(regs, NO_FUNCTIONS));
  }

  lemma CompareJump(s: seq<Step>, m: Machine)
    requires |s| == 2 && s[0].meaning.Compares? && s[1].meaning.Jumps?
    ensures
      var a, b := s[0].operands(s[0].meaning.lhs), s[0].operands(s[0].meaning.rhs);
      Decisions(s, m.lt, 0, 0) == [Event(m.lt(b, a) == s[1].meaning.greater, s[1].meaning.destination)]
  {
    var a, b := s[0].operands(s[0].meaning.lhs), s[0].operands(s[0].meaning.rhs);
    assert s[1..][0] == s[1] && s[1..][1..] == [];
    assert Decisions(s[1..][1..], m.lt, a, b) == [];
  }

  lemma CompareTestJump(s: seq<Step>, m: Machine, flags: Flags)
    requires |s| == 3 && s[0].meaning.Compares? && s[1].meaning.Tests? && s[2].meaning.Jumps?
    ensures
      var below := m.lt(s[0].operands(s[0].meaning.lhs), s[0].operands(s[0].meaning.rhs));
      var common := m.and(s[1].operands(s[1].meaning.lhs), s[1].operands(s[1].meaning.rhs));
      FlagRun(s, m, flags).1 == [Event((!below && common != 0) == s[2].meaning.greater, s[2].meaning.destination)]
  {
    var one := FlagStep(s[0], m, flags).0;
    var two := FlagStep(s[1], m, one).0;
    assert s[1..][0] == s[1] && s[1..][1..] == [s[2]] && [s[2]][1..] == [];
    assert FlagRun([s[2]], m, two).1 == FlagStep(s[2], m, two).1;
    assert FlagRun(s[1..], m, one).1 == FlagStep(s[2], m, two).1;
  }

  // ----- the programs -----

  /** Nothing but zf and cf and temporaries was written before. */
  ghost predicate OnlyFlags(store: Store) {
    forall v :: v in store ==> v.Local? || v == Shared(Register("zf", BIT)) || v == Shared(Register("cf", BIT))
  }

  /** All instructions of a program qualify. */
  ghost predicate AllFit(stream: seq<Assembly>, values: Interpretation<Word>, regs: Registers, table: seq<Entry>,
                         tests: bool) {
    stream == [] ||
    (Faithful(Moment(stream[0], values), regs, table, FlagsFor(table, tests)) &&
     AllFit(stream[1..], values, regs, table, tests))
  }

  lemma OneFits(i: Assembly, values: Interpretation<Word>, regs: Registers, table: seq<Entry>, tests: bool)
    requires Faithful(Moment(i, values), regs, table, FlagsFor(table, tests))
    ensures AllFit([i], values, regs, table, tests)
  {
    assert [i][1..] == [];
  }

  lemma HeadOfJoin<T>(s: seq<T>, t: seq<T>)
    ensures s == [] ==> s + t == t
    ensures s != [] ==> (s + t)[0] == s[0] && (s + t)[1..] == s[1..] + t
  {
  }

  lemma {:induction false} JoinFits(s: seq<Assembly>, t: seq<Assembly>, values: Interpretation<Word>, regs: Registers,
                                    table: seq<Entry>, tests: bool)
    requires AllFit(s, values, regs, table, tests) && AllFit(t, values, regs, table, tests)
    ensures AllFit(s + t, values, regs, table, tests)
  {
    HeadOfJoin(s, t);
    if s != [] {
      JoinFits(s[1..], t, values, regs, table, tests);
    }
  }

  lemma {:induction false} MemberFits(stream: seq<Assembly>, values: Interpretation<Word>, regs: Registers,
                                      table: seq<Entry>, tests: bool, i: Assembly)
    requires AllFit(stream, values, regs, table, tests) && i in stream
    ensures Faithful(Moment(i, values), regs, table, FlagsFor(table, tests))
  {
    if i != stream[0] {
      MemberFits(stream[1..], values, regs, table, tests, i);
    }
  }

  lemma ProgramDecided(stream: seq<Assembly>, fs: seq<Factory>, m: Machine, values: Interpretation<Word>, store: Store,
                       regs: Registers, table: seq<Entry>, tests: bool)
    requires stream != [] && stream[0].name == "cmp" && Registered(fs, regs) && Bitwise(m) && OnlyFlags(store)
    requires FlagsFindable(table, tests) && AllFit(stream, values, regs, table, tests)
    ensures !Lower(fs, stream, table).failed
    ensures Decided(Outputs(fs, stream, m, values, store, table).1, Source(Moments(stream, values), regs), m,
                    Flags(false, false))
  {
    var flags := Flags(false, false);
    FlagsAre(table, tests);
    SourceAt(stream, values, regs);
    FirstCompares(stream[0], values, regs, table, FlagsFor(table, tests));
    forall i | i in stream ensures Faithful(Moment(i, values), regs, table, FlagsFor(table, tests)) {
      MemberFits(stream, values, regs, table, tests, i);
    }
    RegisteredFactoriesSimulate(fs, stream, m, values, store, flags, regs, table, tests);
  }

  lemma FirstCompares(i: Assembly, values: Interpretation<Word>, regs: Registers, table: seq<Entry>, f: FlagSymbols)
    requires i.name == "cmp" && Faithful(Moment(i, values), regs, table, f)
    ensures MeaningIn(regs, NO_FUNCTIONS)(i).Compares?
  {
  }

  lemma JumpFits(name: string, t: string, q: nat, values: Interpretation<Word>, regs: Registers, table: seq<Entry>,
                 tests: bool)
    requires Conditional(name) && Sane(values)
    ensures AllFit([Assembly(name, [t], q)], values, regs, table, tests)
  {
    if Greater(name) {
      GreaterFamily(name);
    } else {
      LessOrEqualFamily(name);
    }
    OtherFits(Assembly(name, [t], q), values, regs, table, tests);
    OneFits(Assembly(name, [t], q), values, regs, table, tests);
  }

  lemma CompareJumpSource(name: string, a: string, b: string, t: string, p: nat, q: nat, m: Machine,
                          values: Interpretation<Word>, regs: Registers)
    requires Conditional(name)
    ensures
      var source := Source(Moments([Assembly("cmp", [a, b], p), Assembly(name, [t], q)], values), regs);
      var below := m.lt(Worth(b, regs, values), Worth(a, regs, values));
      && ComparesOnly(source)
      && Decisions(source, m.lt, 0, 0) == [Event(below == Greater(name), Shared(Parse(t, regs, map[])))]
  {
    var stream := [Assembly("cmp", [a, b], p), Assembly(name, [t], q)];
    SourceAt(stream, values, regs);
    CmpMeans(a, b, p, regs);
    JumpMeans(name, t, q, regs);
    CompareJump(Source(Moments(stream, values), regs), m);
  }

  lemma CompareTestJumpSource(name: string, a: string, b: string, c: string, d: string, t: string,
                              p: nat, q: nat, r: nat, m: Machine, values: Interpretation<Word>, regs: Registers)
    requires Conditional(name)
    ensures
      var stream := [Assembly("cmp", [a, b], p), Assembly("test", [c, d], q), Assembly(name, [t], r)];
      var below := m.lt(Worth(a, regs, values), Worth(b, regs, values));
      var common := m.and(Worth(c, regs, values), Worth(d, regs, values));
      FlagRun(Source(Moments(stream, values), regs), m, Flags(false, false)).1
        == [Event((!below && common != 0) == Greater(name), Shared(Parse(t, regs, map[])))]
  {
    var stream := [Assembly("cmp", [a, b], p), Assembly("test", [c, d], q), Assembly(name, [t], r)];
    SourceAt(stream, values, regs);
    CmpMeans(a, b, p, regs);
    TestMeans(c, d, q, regs);
    JumpMeans(name, t, r, regs);
    CompareTestJump(Source(Moments(stream, values), regs), m, Flags(false, false));
  }

  lemma ThreeFit(a: Assembly, b: Assembly, c: Assembly, values: Interpretation<Word>, regs: Registers,
                 table: seq<Entry>, tests: bool)
    requires AllFit([a], values, regs, table, tests) && AllFit([b], values, regs, table, tests)
    requires AllFit([c], values, regs, table, tests)
    ensures AllFit([a, b], values, regs, table, tests) && AllFit([a, b, c], values, regs, table, tests)
  {
    JoinFits([a], [b], values, regs, table, tests);
    JoinFits([a] + [b], [c], values, regs, table, tests);
    assert [a] + [b] == [a, b] && ([a] + [b]) + [c] == [a, b, c];
  }

  /**
   After `cmp a,b` the mnemonics `ja`, `jg`, `jnbe` and `jnle` branch exactly when `b` is worth less than `a`, and
   `jbe`, `jle`, `jna` and `jng` exactly when it is not.
   */
  lemma {:induction false} JumpsDecide(name: string, a: string, b: string, t: string, p: nat, q: nat, fs: seq<Factory>,
                                       m: Machine, values: Interpretation<Word>, store: Store, regs: Registers,
                                       table: seq<Entry>)
    requires Conditional(name)
    requires Registered(fs, regs) && HoldsFlags(table) && Plain(a, regs, table) && Plain(b, regs, table)
    requires Sane(values) && OnlyFlags(store) && Bitwise(m) && StrictTotalOrder(m.lt)
    ensures
      var stream := [Assembly("cmp", [a, b], p), Assembly(name, [t], q)];
      var below := m.lt(Worth(b, regs, values), Worth(a, regs, values));
      && !Lower(fs, stream, table).failed
      && Outputs(fs, stream, m, values, store, table).1
           == [Event(if Greater(name) then below else !below, Shared(Parse(t, regs, map[])))]
  {
    var cmp, jump := Assembly("cmp", [a, b], p), Assembly(name, [t], q);
    HeldFindable(table);
    CompareFits(cmp, values, regs, table, false);
    JumpFits(name, t, q, values, regs, table, false);
    ThreeFit(cmp, jump, jump, values, regs, table, false);
    ProgramDecided([cmp, jump], fs, m, values, store, regs, table, false);
    CompareJumpSource(name, a, b, t, p, q, m, values, regs);
  }

  /** A `test` in between clears no cf: the branch depends on the last compare and on the tested operands. */
  lemma {:induction false} TestsDecide(name: string, a: string, b: string, c: string, d: string, t: string,
                                       p: nat, q: nat, r: nat, fs: seq<Factory>, m: Machine,
                                       values: Interpretation<Word>, store: Store, regs: Registers, table: seq<Entry>)
    requires Conditional(name)
    requires Registered(fs, regs) && HoldsFlags(table) && HoldsTestFlags(table)
    requires Plain(a, regs, table) && Plain(b, regs, table) && Plain(c, regs, table) && Plain(d, regs, table)
    requires Sane(values) && OnlyFlags(store) && Bitwise(m)
    ensures
      var stream := [Assembly("cmp", [a, b], p), Assembly("test", [c, d], q), Assembly(name, [t], r)];
      var below := m.lt(Worth(a, regs, values), Worth(b, regs, values));
      var above := !below && m.and(Worth(c, regs, values), Worth(d, regs, values)) != 0;
      && !Lower(fs, stream, table).failed
      && Outputs(fs, stream, m, values, store, table).1
           == [Event(if Greater(name) then above else !above, Shared(Parse(t, regs, map[])))]
  {
    var cmp, test, jump := Assembly("cmp", [a, b], p), Assembly("test", [c, d], q), Assembly(name, [t], r);
    HeldFindable(table);
    CompareFits(cmp, values, regs, table, true);
    CompareFits(test, values, regs, table, true);
    JumpFits(name, t, r, values, regs, table, true);
    ThreeFit(cmp, test, jump, values, regs, table, true);
    ProgramDecided([cmp, test, jump], fs, m, values, store, regs, table, true);
    CompareTestJumpSource(name, a, b, c, d, t, p, q, r, m, values, regs);
  }

  // ----- what the flag registers hold -----

  lemma OneEmission(i: Assembly, fs: seq<Factory>, table: seq<Entry>)
    ensures Lower(fs, [i], table) == EmitAll(fs, i, table)
  {
    assert [i][1..] == [];
    ThenNothing(EmitAll(fs, i, table));
  }

  lemma EitherOrder(i: Assembly, fs: seq<Factory>, regs: Registers, table: seq<Entry>)
    requires Registered(fs, regs)
    ensures EmitAll(fs, i, table) == EmitAll([CompareFactory(0, regs), JumpFactory(1, regs)], i, table)
  {
    FactoriesReact(regs, table, i);
    FactoriesExclusive([CompareFactory(0, regs), JumpFactory(1, regs)], i, regs, table);
    EmitAllPermutation(fs, [CompareFactory(0, regs), JumpFactory(1, regs)], i, table);
  }

  lemma OneLowered(i: Assembly, fs: seq<Factory>, regs: Registers, table: seq<Entry>, tests: bool)
    requires Registered(fs, regs) && FlagsFindable(table, tests) && Complete(i) && (i.name == "test" ==> tests)
    ensures Lower(fs, [i], table)
         == Emission(GroupFor(FlagsFor(table, tests), MeaningOf(i, regs, AddressIndex(table))), false)
  {
    FlagsFound(table, tests);
    FlagsAre(table, tests);
    OneEmission(i, fs, table);
    EitherOrder(i, fs, regs, table);
    FactoriesReact(regs, table, i);
    EmitMeaning(CompareFactory(0, regs), JumpFactory(1, regs), i, regs, table, tests);
  }

  lemma KeptWorth(text: string, regs: Registers, table: seq<Entry>, values: Interpretation<Word>, tests: bool)
    requires Plain(text, regs, table) && FlagsFindable(table, tests)
    ensures var v := Shared(Parse(text, regs, AddressIndex(table)));
      PlainOperand(v, FlagsFor(table, tests)) && OperandValues(values)(v) == Worth(text, regs, values)
  {
    var v := Shared(Parse(text, regs, NO_FUNCTIONS));
    FlagsFound(table, tests);
    PlainFits(text, regs, table, tests);
    OperandKeeps(v, AddressIndex(table), values);
    KeptOperandPlain(v, AddressIndex(table), FlagsFor(table, tests));
    ResolveCommutes(text, regs, AddressIndex(table));
  }

  lemma CompareMeaningSpelled(a: string, b: string, p: nat, regs: Registers, functions: Functions)
    ensures MeaningOf(Assembly("cmp", [a, b], p), regs, functions)
         == Compares(Shared(Parse(a, regs, functions)), Shared(Parse(b, regs, functions)))
  {
    assert "cmp"[0] != 'j';
  }

  lemma TestMeaningSpelled(a: string, b: string, p: nat, regs: Registers, functions: Functions)
    ensures MeaningOf(Assembly("test", [a, b], p), regs, functions)
         == Tests(Shared(Parse(a, regs, functions)), Shared(Parse(b, regs, functions)))
  {
    assert "test"[0] != 'j' && "test"[0] != 'c';
  }

  /** After `cmp a,b` zf says whether the operands are equal, and cf whether the first is below the second. */
  lemma {:induction false} CompareSetsFlags(a: string, b: string, p: nat, fs: seq<Factory>, m: Machine,
                                            values: Interpretation<Word>, store: Store, regs: Registers,
                                            table: seq<Entry>)
    requires Registered(fs, regs) && HoldsFlags(table) && Plain(a, regs, table) && Plain(b, regs, table)
    requires OnlyFlags(store)
    ensures
      var after := Outputs(fs, [Assembly("cmp", [a, b], p)], m, values, store, table).0;
      var zf, cf := Shared(Register("zf", BIT)), Shared(Register("cf", BIT));
      var x, y := Worth(a, regs, values), Worth(b, regs, values);
      && zf in after && after[zf] == (if x == y then 1 else 0)
      && cf in after && after[cf] == (if m.lt(x, y) then 1 else 0)
  {
    var i, f, functions := Assembly("cmp", [a, b], p), FlagsFor(table, false), AddressIndex(table);
    HeldFindable(table);
    FlagsFound(table, false);
    FlagsAre(table, false);
    CompareMeaningSpelled(a, b, p, regs, functions);
    OneLowered(i, fs, regs, table, false);
    KeptWorth(a, regs, table, values, false);
    KeptWorth(b, regs, table, values, false);
    var lhs, rhs := Shared(Parse(a, regs, functions)), Shared(Parse(b, regs, functions));
    CompareGroupRun(f, lhs, rhs, m, OperandValues(values), store);
  }

  /** After `test a,b` zf, sf and pf say whether the conjunction is zero, its sign and its parity; cf stays. */
  lemma {:induction false} TestSetsFlags(a: string, b: string, p: nat, fs: seq<Factory>, m: Machine,
                                         values: Interpretation<Word>, store: Store, flags: Flags, regs: Registers,
                                         table: seq<Entry>)
    requires Registered(fs, regs) && HoldsFlags(table) && HoldsTestFlags(table)
    requires Plain(a, regs, table) && Plain(b, regs, table) && Sane(values)
    requires Related(store, flags, FlagsFor(table, true))
    ensures
      var after := Outputs(fs, [Assembly("test", [a, b], p)], m, values, store, table).0;
      var zf, cf := Shared(Register("zf", BIT)), Shared(Register("cf", BIT));
      var sf, pf := Shared(Register("sf", BIT)), Shared(Register("pf", BIT));
      var common := m.and(Worth(a, regs, values), Worth(b, regs, values));
      && zf in after && after[zf] == (if common == 0 then 1 else 0)
      && cf in after && cf in store && after[cf] == store[cf]
      && sf in after && after[sf] == m.msb(common) && pf in after && after[pf] == m.xnor(common)
  {
    var i, f, functions := Assembly("test", [a, b], p), FlagsFor(table, true), AddressIndex(table);
    HeldFindable(table);
    FlagsFound(table, true);
    FlagsAre(table, true);
    TestMeaningSpelled(a, b, p, regs, functions);
    OneLowered(i, fs, regs, table, true);
    KeptWorth(a, regs, table, values, true);
    KeptWorth(b, regs, table, values, true);
    ConstantsMean(values);
    var lhs, rhs := Shared(Parse(a, regs, functions)), Shared(Parse(b, regs, functions));
    TestLeaves(f, lhs, rhs, m, OperandValues(values), store, flags);
  }

  lemma TestLeaves(f: FlagSymbols, lhs: Value, rhs: Value, m: Machine, operands: Valuation, store: Store, flags: Flags)
    requires Resolved(f) && TestsResolved(f) && Related(store, flags, f) && operands(ZERO) == 0
    requires PlainOperand(lhs, f) && PlainOperand(rhs, f)
    ensures
      var after := Run(TestGroup(f.zf, f.sf, f.pf, lhs, rhs), m, operands, store).0;
      var common := m.and(operands(lhs), operands(rhs));
      && f.zf in after && after[f.zf] == (if common == 0 then 1 else 0)
      && f.cf in after && f.cf in store && after[f.cf] == store[f.cf]
      && f.sf in after && after[f.sf] == m.msb(common) && f.pf in after && after[f.pf] == m.xnor(common)
  {
    TestGroupRun(f, lhs, rhs, m, operands, store, flags);
  }

  // ----- what is emitted, instruction by instruction -----

  /** The instructions of a conditional jump, with the names of its temporaries. */
  lemma {:induction false} JumpSpelled(name: string, t: string, q: nat, regs: Registers, table: seq<Entry>)
    requires Conditional(name) && HoldsFlags(table)
    ensures
      var zf, cf := Shared(Register("zf", BIT)), Shared(Register("cf", BIT));
      var bit := Shared(Immidiate(if Greater(name) then "0" else "1"));
      var result, other := Local("TempResult"), Local("Temp2Result");
      EmitJump(Assembly(name, [t], q), regs, table) == Emission(
        [Cmp(result, cf, EQ, bit), Cmp(other, zf, EQ, bit),
         BinaryOperation(result, other, if Greater(name) then AND else OR, result),
         Branch(result, Shared(Parse(t, regs, map[])))], false)
  {
    HeldFindable(table);
    ZeroAndCarryFound(table);
    if Greater(name) {
      GreaterFamily(name);
    } else {
      LessOrEqualFamily(name);
    }
  }

  /** The instructions of a compare. */
  lemma {:induction false} CompareSpelled(a: string, b: string, p: nat, regs: Registers, table: seq<Entry>)
    requires HoldsFlags(table)
    ensures
      var zf, cf := Shared(Register("zf", BIT)), Shared(Register("cf", BIT));
      var x, y := Shared(Parse(a, regs, AddressIndex(table))), Shared(Parse(b, regs, AddressIndex(table)));
      EmitCompare(Assembly("cmp", [a, b], p), regs, table)
        == Emission([Cmp(zf, x, EQ, y), Cmp(cf, x, LT, y)], false)
  {
    HeldFindable(table);
    ZeroAndCarryFound(table);
  }

  lemma TestEmission(i: Assembly, regs: Registers, table: seq<Entry>)
    requires i.name == "test" && |i.args| >= 2
    requires Lookup(table, "_zf").Shared? && Lookup(table, "_sf").Shared? && Lookup(table, "_pf").Shared?
    ensures EmitCompare(i, regs, table) == Emission(
      TestGroup(Lookup(table, "_zf"), Lookup(table, "_sf"), Lookup(table, "_pf"),
                Shared(Parse(i.args[0], regs, AddressIndex(table))),
                Shared(Parse(i.args[1], regs, AddressIndex(table)))),
      false)
  {
    assert "test"[0] != 'c';
  }

  /** The instructions of a test, with the name of its temporary. */
  lemma {:induction false} TestSpelled(a: string, b: string, p: nat, regs: Registers, table: seq<Entry>)
    requires HoldsFlags(table) && HoldsTestFlags(table)
    ensures
      var zf, sf, pf := Shared(Register("zf", BIT)), Shared(Register("sf", BIT)), Shared(Register("pf", BIT));
      var x, y := Shared(Parse(a, regs, AddressIndex(table))), Shared(Parse(b, regs, AddressIndex(table)));
      var common := Local("Temporary");
      EmitCompare(Assembly("test", [a, b], p), regs, table) == Emission(
        [BinaryOperation(common, x, AND, y), UnaryInstruction(sf, MSB, common),
         Cmp(zf, common, EQ, Shared(Immidiate("0"))), UnaryInstruction(pf, BitwiseXNOR, common)], false)
  {
    HeldFindable(table);
    ZeroAndCarryFound(table);
    SignAndParityFound(table);
    TestEmission(Assembly("test", [a, b], p), regs, table);
  }

  // ----- what throws, and what emits nothing -----

  /** Without one of the flags it writes, a compare or test throws before it sends anything. */
  lemma {:induction false} MissingFlagThrows(i: Assembly, regs: Registers, table: seq<Entry>)
    requires |i.args| >= 2
    requires (i.name == "cmp" && (FindName(table, "_zf").None? || FindName(table, "_cf").None?))
      || (i.name == "test" &&
          (FindName(table, "_zf").None? || FindName(table, "_sf").None? || FindName(table, "_pf").None?))
    ensures EmitCompare(i, regs, table) == Emission([], true)
  {
    assert "test"[0] != 'c';
  }

  /** A conditional jump without a target sends its condition and throws. */
  lemma {:induction false} MissingTargetThrows(i: Assembly, regs: Registers, table: seq<Entry>)
    requires Conditional(i.name) && i.args == []
    ensures EmitJump(i, regs, table).failed && |EmitJump(i, regs, table).group| == 3
  {
  }

  /** All other mnemonics pass both factories unseen. */
  lemma {:induction false} OthersEmitNothing(i: Assembly, regs: Registers, table: seq<Entry>)
    requires i.name != "cmp" && i.name != "test" && !Conditional(i.name)
    ensures EmitCompare(i, regs, table) == NOTHING && EmitJump(i, regs, table) == NOTHING
  {
  }
}
