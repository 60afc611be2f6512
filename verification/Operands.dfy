/** What an operand is worth, and when the resolution of known addresses keeps that. */
module Operands {
  import opened Wrappers
  import opened Patterns
  import opened Nodes
  import opened Decoder
  import SymbolTable

  /** A meaning of operands: of numbers, of registers and unknown symbols, of operators, and of memory. */
  datatype Interpretation<!V> = Interpretation(
    constant: Address -> V, leaf: Node -> V, apply: (V, char, V) -> V, load: (Size, V) -> V)

  /** The number a numeral or a function stands for. */
  function Constant(n: Node): Option<Address> {
    match n
    case Immidiate(value) => if IsHexNumber(value) then Some(StrToVma(Digits(value))) else None
    case Function(_, address) => Some(address)
    case _ => None
  }

  function Eval<V>(n: Node, e: Interpretation<V>): V {
    match n
    case Binary(lhs, op, rhs) => e.apply(Eval(lhs, e), op, Eval(rhs, e))
    case Dereference(size, operand) => e.load(size, Eval(operand, e))
    case _ => if Constant(n).Some? then e.constant(Constant(n).value) else e.leaf(n)
  }

  /** Numbers mean themselves. */
  ghost predicate Numeric(e: Interpretation<Address>) {
    forall a :: e.constant(a) == a
  }

  /** A leaf is not replaced, or by itself, or a numeral by what stands for the same number. */
  predicate LeafKept(n: Node, functions: Functions) {
    var known := Known(Flatten(n), functions);
    known.Some? ==> known.value == n || (Constant(n).Some? && Constant(known.value) == Constant(n))
  }

  predicate Kept(n: Node, functions: Functions) {
    match n
    case Binary(lhs, _, rhs) => Kept(lhs, functions) && Kept(rhs, functions)
    case Dereference(_, operand) => Kept(operand, functions)
    case _ => LeafKept(n, functions)
  }

  lemma {:induction false} ResolutionKeeps<V>(n: Node, functions: Functions, e: Interpretation<V>)
    requires Kept(n, functions)
    ensures Eval(Resolve(n, functions), e) == Eval(n, e)
  {
    match n
    case Binary(lhs, _, rhs) =>
      ResolutionKeeps(lhs, functions, e);
      ResolutionKeeps(rhs, functions, e);
    case Dereference(_, operand) => ResolutionKeeps(operand, functions, e);
    case _ =>
  }

  /** The tree with every leaf that stands for a number replaced by one and the same node for it. */
  function Symbolic(n: Node): Node {
    match n
    case Binary(lhs, op, rhs) => Binary(Symbolic(lhs), op, Symbolic(rhs))
    case Dereference(size, operand) => Dereference(size, Symbolic(operand))
    case _ => if Constant(n).Some? then Function("", Constant(n).value) else n
  }

  /** The interpretation that tells apart whatever any interpretation can. */
  const SYMBOLIC := Interpretation(
    (a: Address) => Function("", a), (n: Node) => n,
    (l: Node, op: char, r: Node) => Binary(l, op, r), (z: Size, n: Node) => Dereference(z, n))

  lemma {:induction false} EvalSymbolic(n: Node)
    ensures Eval(n, SYMBOLIC) == Symbolic(n)
  {
    match n
    case Binary(lhs, _, rhs) =>
      EvalSymbolic(lhs);
      EvalSymbolic(rhs);
    case Dereference(_, operand) => EvalSymbolic(operand);
    case _ =>
  }

  lemma LeafSymbolic(n: Node, m: Node)
    requires !n.Binary? && !n.Dereference? && Symbolic(m) == Symbolic(n)
    ensures m == n || (Constant(n).Some? && Constant(m) == Constant(n))
  {
  }

  lemma {:induction false} SymbolicKeeps(n: Node, functions: Functions)
    requires Symbolic(Resolve(n, functions)) == Symbolic(n)
    ensures Kept(n, functions)
  {
    match n
    case Binary(lhs, _, rhs) =>
      SymbolicKeeps(lhs, functions);
      SymbolicKeeps(rhs, functions);
    case Dereference(_, operand) => SymbolicKeeps(operand, functions);
    case _ => LeafSymbolic(n, Resolve(n, functions));
  }

  /** The two trees are worth the same in every interpretation. */
  ghost predicate SameValue(n: Node, m: Node) {
    forall e: Interpretation<Node> :: Eval(n, e) == Eval(m, e)
  }

  lemma SameSymbolic(n: Node, m: Node)
    requires SameValue(n, m)
    ensures Symbolic(n) == Symbolic(m)
  {
    EvalSymbolic(n);
    EvalSymbolic(m);
    assert Eval(n, SYMBOLIC) == Eval(m, SYMBOLIC);
  }

  lemma KeptSameValue(n: Node, functions: Functions)
    requires Kept(n, functions)
    ensures SameValue(Resolve(n, functions), n)
  {
    forall e: Interpretation<Node> ensures Eval(Resolve(n, functions), e) == Eval(n, e) {
      ResolutionKeeps(n, functions, e);
    }
  }

  /** Resolution keeps the value of an operand in every interpretation exactly when it keeps its leaves. */
  lemma {:induction false} ResolutionKeepsExactly(n: Node, functions: Functions)
    ensures SameValue(Resolve(n, functions), n) <==> Kept(n, functions)
  {
    if Kept(n, functions) {
      KeptSameValue(n, functions);
    }
    if SameValue(Resolve(n, functions), n) {
      SameSymbolic(Resolve(n, functions), n);
      SymbolicKeeps(n, functions);
    }
  }

  // ----- operands as they are read: which numerals are misread -----

  /** The address every symbol but a function has. */
  const NO_ADDRESS: Address := TWO_TO_THE_64 - 1

  /** No function stands in the tree yet, and only numerals read as numerals. */
  predicate Unresolved(n: Node, regs: Registers) {
    match n
    case Binary(lhs, _, rhs) => Unresolved(lhs, regs) && Unresolved(rhs, regs)
    case Dereference(_, operand) => Unresolved(operand, regs)
    case _ => n == LeafOf(Flatten(n), regs)
  }

  lemma {:induction false} ParseUnresolved(expr: string, regs: Registers)
    ensures Unresolved(Parse(expr, regs, NO_FUNCTIONS), regs)
    decreases |expr|
  {
    ParseByShape(expr, regs, NO_FUNCTIONS);
    match ShapeOf(expr, regs)
    case Atomic =>
    case Dereferencing(_, _, inner) => ParseUnresolved(inner, regs);
    case Operation(lhs, _, rhs) =>
      ParseUnresolved(lhs, regs);
      ParseUnresolved(rhs, regs);
  }

  /** Every numeral of the operand that has the address of a known symbol has that of a function. */
  predicate NumeralsNameFunctions(n: Node, functions: Functions) {
    match n
    case Binary(lhs, _, rhs) => NumeralsNameFunctions(lhs, functions) && NumeralsNameFunctions(rhs, functions)
    case Dereference(_, operand) => NumeralsNameFunctions(operand, functions)
    case Immidiate(value) => Known(value, functions).Some? ==> Known(value, functions).value.Function?
    case _ => true
  }

  /** No register of the operand is spelled like the address of a known symbol (`cf` is also a numeral). */
  predicate RegistersUnknown(n: Node, functions: Functions) {
    match n
    case Binary(lhs, _, rhs) => RegistersUnknown(lhs, functions) && RegistersUnknown(rhs, functions)
    case Dereference(_, operand) => RegistersUnknown(operand, functions)
    case Register(key, _) => Known(key, functions).None?
    case _ => true
  }

  /** The symbols of the table are registers, functions and plain symbols. */
  predicate PlainSymbols(table: seq<SymbolTable.Entry>) {
    forall e :: e in table ==> Plain(e.symbol)
  }

  predicate Plain(n: Node) {
    n.Register? || n.Function? || n.Symbol?
  }

  /** What the index of such a table is like: a symbol stands at its address. */
  predicate Indexed(functions: Functions) {
    forall a :: a in functions ==> AddressOf(functions[a]) == a && Plain(functions[a])
  }

  lemma TableIndexed(table: seq<SymbolTable.Entry>)
    requires PlainSymbols(table)
    ensures Indexed(SymbolTable.AddressIndex(table))
  {
    forall a | a in SymbolTable.AddressIndex(table)
      ensures AddressOf(SymbolTable.AddressIndex(table)[a]) == a && Plain(SymbolTable.AddressIndex(table)[a])
    {
      SymbolTable.IndexAgreesWithScan(table, a);
      var i := SymbolTable.FirstIndex(table, SymbolTable.HasAddress(a));
      assert table[i] in table;
    }
  }

  lemma KnownNumeral(value: string, functions: Functions)
    requires IsHexNumber(value)
    ensures Known(value, functions) ==
      var a := Constant(Immidiate(value)).value;
      if a in functions then Some(functions[a]) else None
  {
    AddressValue(value);
  }

  /** What is found for a text is found at the number it spells. */
  lemma KnownSymbol(text: string, functions: Functions)
    requires Indexed(functions) && Known(text, functions).Some?
    ensures IsHexNumber(text) && Plain(Known(text, functions).value)
    ensures AddressOf(Known(text, functions).value) == Constant(Immidiate(text)).value
    ensures Constant(Immidiate(text)).value in functions
    ensures Known(text, functions).value == functions[Constant(Immidiate(text)).value]
  {
    KnownNumeral(text, functions);
  }

  lemma NotKnown(text: string, functions: Functions)
    requires Known(text, functions).None?
    ensures IsHexNumber(text) ==> Constant(Immidiate(text)).value !in functions
  {
    if IsHexNumber(text) {
      KnownNumeral(text, functions);
    }
  }

  lemma FoundConstant(n: Node, a: Address)
    requires Plain(n) && AddressOf(n) == a
    ensures Constant(n) == Some(a) <==> n.Function?
  {
  }

  lemma LeafKeptByNumeral(n: Node, regs: Registers, functions: Functions)
    requires IsLeaf(n) && n == LeafOf(Flatten(n), regs) && Indexed(functions)
    ensures LeafKept(n, functions) <==> NumeralsNameFunctions(n, functions)
  {
    var text := Flatten(n);
    var known := Known(text, functions);
    if known.Some? {
      KnownSymbol(text, functions);
      assert n == Immidiate(text);
      FoundConstant(known.value, Constant(n).value);
    }
  }

  lemma {:induction false} KeptByNumerals(n: Node, regs: Registers, functions: Functions)
    requires Unresolved(n, regs) && Indexed(functions) && RegistersUnknown(n, functions)
    ensures Kept(n, functions) <==> NumeralsNameFunctions(n, functions)
  {
    match n
    case Binary(lhs, _, rhs) =>
      KeptByNumerals(lhs, regs, functions);
      KeptByNumerals(rhs, regs, functions);
    case Dereference(_, operand) => KeptByNumerals(operand, regs, functions);
    case Register(_, _) =>
    case _ => LeafKeptByNumeral(n, regs, functions);
  }

  /** The numeral of the default address stands in the tree. */
  predicate HasTop(n: Node) {
    match n
    case Binary(lhs, _, rhs) => HasTop(lhs) || HasTop(rhs)
    case Dereference(_, operand) => HasTop(operand)
    case _ => Constant(n) == Some(NO_ADDRESS)
  }

  function Same(a: Address): Address {
    a
  }

  function Blank(n: Node): Address {
    0
  }

  function Through(z: Size, a: Address): Address {
    a
  }

  function Mark(a: Address, op: char, b: Address): Address {
    if a == NO_ADDRESS || b == NO_ADDRESS then NO_ADDRESS else 0
  }

  /** Words in which only the default address leaves a trace. */
  function Trace(): Interpretation<Address> {
    Interpretation(Same, Blank, Mark, Through)
  }

  lemma {:induction false} TraceShowsTop(n: Node)
    ensures Eval(n, Trace()) == NO_ADDRESS <==> HasTop(n)
  {
    match n
    case Binary(lhs, _, rhs) =>
      TraceShowsTop(lhs);
      TraceShowsTop(rhs);
    case Dereference(_, operand) => TraceShowsTop(operand);
    case _ =>
  }

  lemma {:induction false} MisreadIsTop(n: Node, regs: Registers, functions: Functions)
    requires Unresolved(n, regs) && Indexed(functions) && !NumeralsNameFunctions(n, functions)
    ensures HasTop(n) && NO_ADDRESS in functions && !functions[NO_ADDRESS].Function?
  {
    match n
    case Binary(lhs, _, rhs) =>
      if NumeralsNameFunctions(lhs, functions) {
        MisreadIsTop(rhs, regs, functions);
      } else {
        MisreadIsTop(lhs, regs, functions);
      }
    case Dereference(_, operand) => MisreadIsTop(operand, regs, functions);
    case Immidiate(value) => KnownNumeral(value, functions);
    case _ =>
  }

  lemma {:induction false} ResolvedHasNoTop(n: Node, regs: Registers, functions: Functions)
    requires Unresolved(n, regs) && Indexed(functions)
    requires NO_ADDRESS in functions && !functions[NO_ADDRESS].Function?
    ensures !HasTop(Resolve(n, functions))
  {
    match n
    case Binary(lhs, _, rhs) =>
      ResolvedHasNoTop(lhs, regs, functions);
      ResolvedHasNoTop(rhs, regs, functions);
    case Dereference(_, operand) => ResolvedHasNoTop(operand, regs, functions);
    case _ => LeafHasNoTop(n, regs, functions);
  }

  lemma FoundHasNoTop(n: Node, functions: Functions)
    requires Plain(n) && AddressOf(n) in functions && functions[AddressOf(n)] == n
    requires NO_ADDRESS in functions && !functions[NO_ADDRESS].Function?
    ensures !HasTop(n)
  {
  }

  lemma LeafHasNoTop(n: Node, regs: Registers, functions: Functions)
    requires !n.Binary? && !n.Dereference? && n == LeafOf(Flatten(n), regs) && Indexed(functions)
    requires NO_ADDRESS in functions && !functions[NO_ADDRESS].Function?
    ensures !HasTop(Resolve(n, functions))
  {
    var text := Flatten(n);
    var known := Known(text, functions);
    if known.Some? {
      KnownSymbol(text, functions);
      FoundHasNoTop(known.value, functions);
      assert Resolve(n, functions) == known.value;
    } else {
      NotKnown(text, functions);
      assert Resolve(n, functions) == n;
      assert n.Immidiate? ==> text == n.value;
    }
  }

  /** The operand is worth the same before and after resolution, whatever registers and memory hold. */
  ghost predicate SameWord(n: Node, m: Node) {
    forall e: Interpretation<Address> :: Numeric(e) ==> Eval(n, e) == Eval(m, e)
  }

  /** A numeral that has the address of another symbol than a function changes the value of its operand. */
  lemma {:induction false} NumeralMisread(n: Node, regs: Registers, functions: Functions)
    requires Unresolved(n, regs) && Indexed(functions) && !NumeralsNameFunctions(n, functions)
    ensures !SameWord(Resolve(n, functions), n)
  {
    var m := Resolve(n, functions);
    MisreadIsTop(n, regs, functions);
    ResolvedHasNoTop(n, regs, functions);
    TraceShowsTop(n);
    TraceShowsTop(m);
    assert Numeric(Trace()) && Eval(m, Trace()) != Eval(n, Trace());
  }

  /**
   Resolving an operand that was read without functions keeps its value exactly when no numeral in it
   has the address of a symbol that is no function.
   */
  lemma {:induction false} NumeralsKeepExactly(n: Node, regs: Registers, functions: Functions)
    requires Unresolved(n, regs) && Indexed(functions) && RegistersUnknown(n, functions)
    ensures SameWord(Resolve(n, functions), n) <==> NumeralsNameFunctions(n, functions)
  {
    KeptByNumerals(n, regs, functions);
    if NumeralsNameFunctions(n, functions) {
      forall e: Interpretation<Address> | Numeric(e) ensures Eval(Resolve(n, functions), e) == Eval(n, e) {
        ResolutionKeeps(n, functions, e);
      }
    } else {
      NumeralMisread(n, regs, functions);
    }
  }

  // ----- the numeral every register table misreads -----

  function Power(n: nat): (p: nat)
    ensures p >= 1
  {
    if n == 0 then 1 else 16 * Power(n - 1)
  }

  lemma {:induction false} AllOnesValue(s: string)
    requires forall i :: 0 <= i < |s| ==> s[i] == 'f'
    ensures HexValue(s) == Power(|s|) - 1
  {
    if s != [] {
      AllOnesValue(s[..|s| - 1]);
    }
  }

  const ONES := "ffffffffffffffff"

  const ALL_ONES := "0x" + ONES

  lemma PowerSixteen()
    ensures Power(16) == TWO_TO_THE_64
  {
    assert Power(4) == 0x1_0000;
    assert Power(8) == 0x1_0000 * Power(4);
    assert Power(12) == 0x1_0000 * Power(8);
    assert Power(16) == 0x1_0000 * Power(12);
  }

  lemma AllOnesDigits(ones: string)
    requires ones != "" && forall i :: 0 <= i < |ones| ==> ones[i] == 'f'
    ensures IsHexNumber("0x" + ones) && Digits("0x" + ones) == ones
    ensures IsHexNumber(ones) && Digits(ones) == ones
  {
    assert ("0x" + ones)[2..] == ones && ("0x" + ones)[..2] == "0x";
  }

  lemma AllOnesAddress()
    ensures IsHexNumber(ALL_ONES) && HexValue(Digits(ALL_ONES)) == NO_ADDRESS
    ensures IsHexNumber(ONES) && HexValue(Digits(ONES)) == NO_ADDRESS
  {
    AllOnesDigits(ONES);
    AllOnesValue(ONES);
    PowerSixteen();
  }

  /**
   With a symbol of the default address in the table - any register is one - and no function there,
   every numeral from that address up is read as the first such symbol.
   */
  lemma {:induction false} TopNumeralMisread(expr: string, regs: Registers, table: seq<SymbolTable.Entry>,
                                             e: SymbolTable.Entry)
    requires IsHexNumber(expr) && HexValue(Digits(expr)) >= NO_ADDRESS && expr !in regs
    requires PlainSymbols(table) && e in table && AddressOf(e.symbol) == NO_ADDRESS
    requires forall d :: d in table && d.symbol.Function? ==> d.symbol.address != NO_ADDRESS
    ensures
      var n := Parse(expr, regs, SymbolTable.AddressIndex(table));
      && Some(n) == SymbolTable.FindAddress(table, NO_ADDRESS) && !n.Function?
      && !SameWord(n, Parse(expr, regs, NO_FUNCTIONS))
  {
    var index := SymbolTable.AddressIndex(table);
    SymbolTable.IndexAgreesWithScan(table, NO_ADDRESS);
    TopFound(table, e);
    TableIndexed(table);
    TopNumeralReads(expr, regs, index);
  }

  lemma NumeralReads(expr: string, regs: Registers)
    requires IsHexNumber(expr) && expr !in regs
    ensures Parse(expr, regs, NO_FUNCTIONS) == Immidiate(expr)
  {
    ParseByShape(expr, regs, NO_FUNCTIONS);
  }

  lemma TopConstant(value: string)
    requires IsHexNumber(value) && HexValue(Digits(value)) >= NO_ADDRESS
    ensures Constant(Immidiate(value)) == Some(NO_ADDRESS)
  {
  }

  lemma TopResolves(value: string, functions: Functions)
    requires IsHexNumber(value) && Constant(Immidiate(value)) == Some(NO_ADDRESS) && NO_ADDRESS in functions
    ensures Known(value, functions) == Some(functions[NO_ADDRESS])
    ensures Resolve(Immidiate(value), functions) == functions[NO_ADDRESS]
  {
    KnownNumeral(value, functions);
    assert Flatten(Immidiate(value)) == value;
  }

  lemma TopNumeralReads(expr: string, regs: Registers, functions: Functions)
    requires IsHexNumber(expr) && HexValue(Digits(expr)) >= NO_ADDRESS && expr !in regs && Indexed(functions)
    requires NO_ADDRESS in functions && !functions[NO_ADDRESS].Function?
    ensures Parse(expr, regs, functions) == functions[NO_ADDRESS]
    ensures !SameWord(functions[NO_ADDRESS], Parse(expr, regs, NO_FUNCTIONS))
  {
    NumeralReads(expr, regs);
    TopConstant(expr);
    TopResolves(expr, functions);
    ResolveCommutes(expr, regs, functions);
    ParseUnresolved(expr, regs);
    NumeralMisread(Immidiate(expr), regs, functions);
  }

  lemma TopFound(table: seq<SymbolTable.Entry>, e: SymbolTable.Entry)
    requires e in table && AddressOf(e.symbol) == NO_ADDRESS
    requires forall d :: d in table && d.symbol.Function? ==> d.symbol.address != NO_ADDRESS
    ensures var n := SymbolTable.FindAddress(table, NO_ADDRESS);
      n.Some? && !n.value.Function?
  {
    var k :| 0 <= k < |table| && table[k] == e;
    var i := SymbolTable.FirstIndex(table, SymbolTable.HasAddress(NO_ADDRESS));
    assert i <= k;
    assert table[i] in table;
  }

  /**
   In particular -1 itself: `cmp rax,0xffffffffffffffff`, whose operand arrives without its `0x`, compares
   with a register, and so does an operand that has the numeral in brackets, with its `0x`.
   */
  lemma {:induction false} AllOnesMisread(text: string, regs: Registers, table: seq<SymbolTable.Entry>,
                                          e: SymbolTable.Entry)
    requires text == ONES || text == ALL_ONES
    requires text !in regs && PlainSymbols(table) && e in table && AddressOf(e.symbol) == NO_ADDRESS
    requires forall d :: d in table && d.symbol.Function? ==> d.symbol.address != NO_ADDRESS
    ensures
      var n := Parse(text, regs, SymbolTable.AddressIndex(table));
      && Some(n) == SymbolTable.FindAddress(table, NO_ADDRESS) && !n.Function?
      && !SameWord(n, Parse(text, regs, NO_FUNCTIONS))
  {
    AllOnesAddress();
    TopNumeralMisread(text, regs, table, e);
  }
}
