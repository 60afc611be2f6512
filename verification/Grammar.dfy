/**
 The grammar the parser implements: operators are left-associative and `+`, `-` bind
 tighter than `*`. Parsing and flattening are inverse on exactly the trees of this grammar.
 */
module Grammar {
  import opened Wrappers
  import opened Patterns
  import opened Nodes
  import opened Decoder

  // ----- grouping of operators -----

  predicate IsMul(n: Node) {
    n.Binary? && n.op == '*'
  }

  predicate IsAdd(n: Node) {
    n.Binary? && (n.op == '+' || n.op == '-')
  }

  /** `*` among the operators outside brackets. */
  predicate HasMul(n: Node) {
    n.Binary? && (IsMul(n) || HasMul(n.lhs) || HasMul(n.rhs))
  }

  /** `+` or `-` among the operators outside brackets. */
  predicate HasAdd(n: Node) {
    n.Binary? && (IsAdd(n) || HasAdd(n.lhs) || HasAdd(n.rhs))
  }

  /** Left-associative, additive operators tighter than `*`. */
  predicate TightAdditive(n: Node) {
    match n
    case Dereference(_, operand) => TightAdditive(operand)
    case Binary(lhs, op, rhs) =>
      TightAdditive(lhs) && TightAdditive(rhs) &&
      if op == '*' then !HasMul(rhs) else (op == '+' || op == '-') && !HasMul(lhs) && !rhs.Binary?
    case _ => true
  }

  /** Left-associative, `*` tighter than the additive operators. */
  predicate Conventional(n: Node) {
    match n
    case Dereference(_, operand) => Conventional(operand)
    case Binary(lhs, op, rhs) =>
      Conventional(lhs) && Conventional(rhs) &&
      if op == '+' || op == '-' then !HasAdd(rhs) else op == '*' && !HasAdd(lhs) && !rhs.Binary?
    case _ => true
  }

  // ----- every parse is grouped this way -----

  /** The only place such an operator may stand is the very end of the text. */
  predicate OnlyLast(s: string, ops: set<char>) {
    forall i :: 0 <= i < |s| - 1 ==> s[i] !in ops
  }

  predicate NoSplit(s: string, ops: set<char>) {
    forall i :: 1 <= i < |s| - 1 ==> s[i] !in ops
  }

  lemma SplitParts(s: string, ops: set<char>)
    requires MatchSplit(s, ops).Some?
    ensures var m := MatchSplit(s, ops).value; |m.lhs| < |s| && |m.rhs| < |s| && OnlyLast(m.rhs, ops)
  {
    var m := MatchSplit(s, ops).value;
    forall i | 0 <= i < |m.rhs| - 1 ensures m.rhs[i] !in ops {
      assert s[|m.lhs| + 1 + i] == m.rhs[i];
      assert !SplitsAt(s, ops, |m.lhs| + 1 + i);
    }
  }

  lemma ShapeParts(s: string, regs: Registers)
    ensures var shape := ShapeOf(s, regs);
      shape.Operation? ==>
        (shape.op in MULTIPLICATION ==> OnlyLast(shape.rhs, MULTIPLICATION)) &&
        (shape.op in ADD_OR_SUBTRACT ==> OnlyLast(shape.rhs, ADD_OR_SUBTRACT) && NoSplit(s, MULTIPLICATION))
  {
    var shape := ShapeOf(s, regs);
    if shape.Operation? {
      var multiplication := MatchSplit(s, MULTIPLICATION);
      if multiplication.Some? {
        SplitParts(s, MULTIPLICATION);
      } else {
        SplitParts(s, ADD_OR_SUBTRACT);
        forall i | 1 <= i < |s| - 1 ensures s[i] !in MULTIPLICATION {
          assert !SplitsAt(s, MULTIPLICATION, i);
        }
      }
    }
  }

  lemma {:induction false} NoSplitNoMul(s: string, regs: Registers)
    requires NoSplit(s, MULTIPLICATION)
    ensures !HasMul(Parse(s, regs, NO_FUNCTIONS))
    decreases |s|
  {
    ParseByShape(s, regs, NO_FUNCTIONS);
    var shape := ShapeOf(s, regs);
    if shape.Operation? {
      assert forall i :: 0 <= i < |shape.lhs| ==> s[i] == shape.lhs[i];
      assert forall i :: 0 <= i < |shape.rhs| ==> s[|shape.lhs| + 1 + i] == shape.rhs[i];
      NoSplitNoMul(shape.lhs, regs);
      NoSplitNoMul(shape.rhs, regs);
    }
  }

  lemma OnlyLastNoAdd(s: string, regs: Registers)
    requires OnlyLast(s, ADD_OR_SUBTRACT) && NoSplit(s, MULTIPLICATION)
    ensures !Parse(s, regs, NO_FUNCTIONS).Binary?
  {
    ParseByShape(s, regs, NO_FUNCTIONS);
  }

  /** For every text the parse tree is left-associative with additive operators binding tighter than `*`. */
  lemma {:induction false} ParseIsTightAdditive(s: string, regs: Registers)
    ensures TightAdditive(Parse(s, regs, NO_FUNCTIONS))
    decreases |s|
  {
    ParseByShape(s, regs, NO_FUNCTIONS);
    ShapeParts(s, regs);
    var shape := ShapeOf(s, regs);
    match shape
    case Atomic =>
    case Dereferencing(_, _, inner) => ParseIsTightAdditive(inner, regs);
    case Operation(lhs, op, rhs) =>
      ParseIsTightAdditive(lhs, regs);
      ParseIsTightAdditive(rhs, regs);
      if op in MULTIPLICATION {
        NoSplitNoMul(rhs, regs);
      } else {
        assert forall i :: 0 <= i < |lhs| ==> s[i] == lhs[i];
        assert forall i :: 0 <= i < |rhs| ==> s[|lhs| + 1 + i] == rhs[i];
        NoSplitNoMul(lhs, regs);
        OnlyLastNoAdd(rhs, regs);
      }
  }

  // ----- and every tree so grouped is the parse of its text -----

  /** Text that no operator pattern and no bracket pattern can cut. */
  predicate AtomText(s: string) {
    && s != "" && '\n' !in s && '\r' !in s
    && '*' !in s && '+' !in s && '-' !in s && '[' !in s
  }

  /** Operators over atoms, each atom being the leaf its text parses to. */
  predicate Operators(n: Node, regs: Registers) {
    match n
    case Binary(lhs, op, rhs) =>
      Operators(lhs, regs) && Operators(rhs, regs) && (op == '*' || op == '+' || op == '-')
    case Dereference(_, _) => false
    case _ => AtomText(Flatten(n)) && n == LeafOf(Flatten(n), regs)
  }

  /** Operators over atoms, inside any number of dereferences. */
  predicate Operand(n: Node, regs: Registers) {
    match n
    case Dereference(size, operand) => size != BIT && Operand(operand, regs)
    case _ => Operators(n, regs)
  }

  /** No key of the register table looks like an operation or a dereference. */
  predicate PlainKeys(regs: Registers) {
    forall key :: key in regs ==> AtomText(key)
  }

  lemma {:induction false} OperatorsText(n: Node, regs: Registers)
    requires Operators(n, regs)
    ensures Flatten(n) != "" && !HasNewline(Flatten(n)) && '[' !in Flatten(n)
    ensures Flatten(n)[0] !in MULTIPLICATION + ADD_OR_SUBTRACT
    ensures Flatten(n)[|Flatten(n)| - 1] !in MULTIPLICATION + ADD_OR_SUBTRACT
    ensures !HasMul(n) ==> forall i :: 0 <= i < |Flatten(n)| ==> Flatten(n)[i] !in MULTIPLICATION
    ensures !n.Binary? ==> forall i :: 0 <= i < |Flatten(n)| ==> Flatten(n)[i] !in MULTIPLICATION + ADD_OR_SUBTRACT
  {
    if n.Binary? {
      OperatorsText(n.lhs, regs);
      OperatorsText(n.rhs, regs);
    }
  }

  lemma DereferenceHasBracket(s: string)
    ensures MatchDereference(s).Some? ==> '[' in s
  {
    DereferenceMatches(s);
    var m := MatchDereference(s);
    if m.Some? {
      var prefix := SizeName(m.value.size) + " PTR " + m.value.segment;
      assert s == prefix + "[" + m.value.inner + "]";
      assert s[|prefix|] == '[';
    }
  }

  /** The last place at which a text may be split leaves no operator behind it. */
  lemma LastSplitAt(s: string, ops: set<char>, i: nat)
    requires SplitsAt(s, ops, i) && forall j :: i < j < |s| ==> s[j] !in ops
    ensures !HasNewline(s) ==> MatchSplit(s, ops) == Some(Split(s[..i], s[i], s[i + 1..]))
  {
    if !HasNewline(s) {
      var m := MatchSplit(s, ops).value;
      assert |m.lhs| == i;
      assert s[..i] == m.lhs && s[i + 1..] == m.rhs;
    }
  }

  /** The split is found where the last operator stands. */
  lemma MatchSplitAt(lhs: string, op: char, rhs: string, ops: set<char>)
    requires lhs != "" && rhs != "" && op in ops && !HasNewline(lhs + [op] + rhs)
    requires forall i :: 0 <= i < |rhs| ==> rhs[i] !in ops
    ensures MatchSplit(lhs + [op] + rhs, ops) == Some(Split(lhs, op, rhs))
  {
    var s := lhs + [op] + rhs;
    assert forall j :: |lhs| < j < |s| ==> s[j] == rhs[j - |lhs| - 1];
    assert s[..|lhs|] == lhs && s[|lhs|] == op && s[|lhs| + 1..] == rhs;
    LastSplitAt(s, ops, |lhs|);
  }

  lemma NotAtomic(s: string, i: nat, regs: Registers)
    requires PlainKeys(regs) && i < |s| && s[i] in MULTIPLICATION + ADD_OR_SUBTRACT + {'['}
    ensures s !in regs && !IsHexNumber(s)
  {
    assert !HexDigit(s[i]);
  }

  lemma BinaryShape(n: Node, regs: Registers)
    requires PlainKeys(regs) && n.Binary? && Operators(n, regs) && TightAdditive(n)
    ensures ShapeOf(Flatten(n), regs) == Operation(Flatten(n.lhs), n.op, Flatten(n.rhs))
  {
    var s := Flatten(n);
    OperatorsText(n, regs);
    OperatorsText(n.lhs, regs);
    OperatorsText(n.rhs, regs);
    assert s[|Flatten(n.lhs)|] == n.op;
    NotAtomic(s, |Flatten(n.lhs)|, regs);
    DereferenceHasBracket(s);
    if IsMul(n) {
      MatchSplitAt(Flatten(n.lhs), n.op, Flatten(n.rhs), MULTIPLICATION);
    } else {
      MatchSplitAt(Flatten(n.lhs), n.op, Flatten(n.rhs), ADD_OR_SUBTRACT);
    }
  }

  lemma {:induction false} LeafShape(n: Node, regs: Registers)
    requires !n.Binary? && Operators(n, regs)
    ensures ShapeOf(Flatten(n), regs).Atomic?
  {
    var s := Flatten(n);
    DereferenceHasBracket(s);
  }

  lemma {:induction false} ParseFlattenOperators(n: Node, regs: Registers)
    requires PlainKeys(regs) && Operators(n, regs) && TightAdditive(n)
    ensures Parse(Flatten(n), regs, NO_FUNCTIONS) == n
  {
    ParseByShape(Flatten(n), regs, NO_FUNCTIONS);
    if n.Binary? {
      BinaryShape(n, regs);
      ParseFlattenOperators(n.lhs, regs);
      ParseFlattenOperators(n.rhs, regs);
    } else {
      LeafShape(n, regs);
    }
  }

  lemma DereferenceShape(size: Size, inner: string, regs: Registers)
    requires PlainKeys(regs) && size != BIT && !HasNewline(inner)
    ensures ShapeOf(DereferenceText(size, "", inner), regs) == Dereferencing(size, "", inner)
  {
    var s := DereferenceText(size, "", inner);
    assert s[|SizeName(size) + " PTR "|] == '[';
    NotAtomic(s, |SizeName(size) + " PTR "|, regs);
    DereferenceUnique(s, size, "", inner);
  }

  lemma {:induction false} OperandText(n: Node, regs: Registers)
    requires Operand(n, regs)
    ensures !HasNewline(Flatten(n))
  {
    if n.Dereference? {
      OperandText(n.operand, regs);
      assert forall c :: c in SizeName(n.size) + " PTR " ==> c != '\n' && c != '\r';
      assert Flatten(n) == SizeName(n.size) + " PTR " + "" + "[" + Flatten(n.operand) + "]";
    } else {
      OperatorsText(n, regs);
    }
  }

  lemma {:induction false} ParseFlatten(n: Node, regs: Registers)
    requires PlainKeys(regs) && Operand(n, regs) && TightAdditive(n)
    ensures Parse(Flatten(n), regs, NO_FUNCTIONS) == n
  {
    if n.Dereference? {
      OperandText(n.operand, regs);
      ParseByShape(Flatten(n), regs, NO_FUNCTIONS);
      DereferenceShape(n.size, Flatten(n.operand), regs);
      ParseFlatten(n.operand, regs);
    } else {
      ParseFlattenOperators(n, regs);
    }
  }

  /** The grammar theorem: a tree is the parse of its own text exactly when it is grouped tight-additively. */
  lemma {:induction false} ParseInvertsFlatten(n: Node, regs: Registers)
    requires PlainKeys(regs) && Operand(n, regs)
    ensures Parse(Flatten(n), regs, NO_FUNCTIONS) == n <==> TightAdditive(n)
  {
    ParseIsTightAdditive(Flatten(n), regs);
    if TightAdditive(n) {
      ParseFlatten(n, regs);
    }
  }

  /** `*` and an additive operator stand side by side. */
  predicate Mixed(n: Node) {
    match n
    case Dereference(_, operand) => Mixed(operand)
    case _ => HasMul(n) && HasAdd(n)
  }

  lemma OperatorKinds(n: Node, regs: Registers)
    requires Operators(n, regs)
    ensures n.Binary? ==> HasMul(n) || HasAdd(n)
  {
  }

  lemma {:induction false} OperatorGroupingsAgree(n: Node, regs: Registers)
    requires Operators(n, regs) && Conventional(n)
    ensures TightAdditive(n) <==> !(HasMul(n) && HasAdd(n))
  {
    if n.Binary? {
      OperatorGroupingsAgree(n.lhs, regs);
      OperatorGroupingsAgree(n.rhs, regs);
      OperatorKinds(n.rhs, regs);
    }
  }

  lemma {:induction false} GroupingsAgree(n: Node, regs: Registers)
    requires Operand(n, regs) && Conventional(n)
    ensures TightAdditive(n) <==> !Mixed(n)
  {
    if n.Dereference? {
      GroupingsAgree(n.operand, regs);
    } else {
      OperatorGroupingsAgree(n, regs);
    }
  }

  /** A conventionally grouped tree is the parse of its text exactly when it does not mix the two kinds of operator. */
  lemma {:induction false} ConventionalPrecedence(n: Node, regs: Registers)
    requires PlainKeys(regs) && Operand(n, regs) && Conventional(n)
    ensures Parse(Flatten(n), regs, NO_FUNCTIONS) == n <==> !Mixed(n)
  {
    ParseInvertsFlatten(n, regs);
    GroupingsAgree(n, regs);
  }

  /** The tree of `base*scale+offset`: the offset is added to the scale first. */
  function ScaledTree(base: string, scale: string, offset: string, regs: Registers): Node
    requires base in regs
  {
    Binary(Register(base, regs[base]), '*', Binary(Immidiate(scale), '+', Immidiate(offset)))
  }

  lemma ScaledText(base: string, scale: string, offset: string, regs: Registers)
    requires PlainKeys(regs) && base in regs
    requires scale !in regs && offset !in regs && IsHexNumber(scale) && IsHexNumber(offset)
    ensures var n := ScaledTree(base, scale, offset, regs);
      Flatten(n) == base + "*" + (scale + "+" + offset) && Operators(n, regs) && TightAdditive(n)
  {
    HexIsAtom(scale);
    HexIsAtom(offset);
    var n := ScaledTree(base, scale, offset, regs);
    assert Operators(n.lhs, regs);
    assert Operators(n.rhs.lhs, regs) && Operators(n.rhs.rhs, regs);
    assert TightAdditive(n.rhs.lhs) && TightAdditive(n.rhs.rhs) && !HasMul(n.rhs.lhs) && !HasMul(n.rhs.rhs);
    assert Operators(n.rhs, regs) && TightAdditive(n.rhs) && !HasMul(n.rhs);
    assert Flatten(n.rhs) == scale + "+" + offset;
  }

  function ScaledName(size: Size, register: string, scale: string, offset: string): string {
    SizedName(size, "*" + Paren(Paren(register) + " * " + Paren(Paren(scale) + " + " + Paren(offset))))
  }

  lemma ScaledTreeName(size: Size, base: string, scale: string, offset: string, regs: Registers)
    requires base in regs && scale != ""
    ensures Name(Dereference(size, ScaledTree(base, scale, offset, regs)))
         == ScaledName(size, SizedName(regs[base], "_" + base), scale, offset)
  {
    var n := ScaledTree(base, scale, offset, regs);
    OperationName(scale, '+', offset);
    assert Name(n.rhs) == Paren(scale) + " + " + Paren(offset);
    OperationName(Name(n.lhs), '*', Name(n.rhs));
    assert Name(n) == Paren(SizedName(regs[base], "_" + base)) + " * " + Paren(Name(n.rhs));
    StarShape(Name(n));
  }

  /** The operand `SIZE PTR [base*scale+offset]` is printed with the offset added to the scale first. */
  lemma {:induction false} ScaledAddress(size: Size, base: string, scale: string, offset: string, regs: Registers)
    requires PlainKeys(regs) && size != BIT && base in regs
    requires scale !in regs && offset !in regs && IsHexNumber(scale) && IsHexNumber(offset)
    ensures Name(Parse(DereferenceText(size, "", base + "*" + (scale + "+" + offset)), regs, NO_FUNCTIONS))
         == ScaledName(size, SizedName(regs[base], "_" + base), scale, offset)
  {
    ScaledText(base, scale, offset, regs);
    ParseFlatten(Dereference(size, ScaledTree(base, scale, offset, regs)), regs);
    ScaledTreeName(size, base, scale, offset, regs);
  }

  lemma OperationName(lhs: string, op: char, rhs: string)
    requires lhs != ""
    ensures FetchName(rhs, [op], lhs) == Paren(lhs) + (" " + [op] + " ") + Paren(rhs)
  {
    assert Paren(lhs) + " " + [op] + " " == Paren(lhs) + (" " + [op] + " ");
  }

  lemma HexIsAtom(s: string)
    requires IsHexNumber(s)
    ensures AtomText(s)
  {
    var d := Digits(s);
    assert forall i :: 0 <= i < |d| ==> HexDigit(d[i]);
    assert s == d || (forall i :: 0 <= i < |s| ==> s[i] == if i < 2 then "0x"[i] else d[i - 2]);
  }

  /** An atom is a register if the table has its text, else an immediate if it is a number, else a symbol. */
  lemma {:induction false} LeavesRead(a: string, regs: Registers)
    requires AtomText(a)
    ensures a in regs ==> Parse(a, regs, NO_FUNCTIONS) == Register(a, regs[a])
    ensures a !in regs && IsHexNumber(a) ==> Parse(a, regs, NO_FUNCTIONS) == Immidiate(a)
    ensures a !in regs && !IsHexNumber(a) ==> Parse(a, regs, NO_FUNCTIONS) == Symbol(a)
  {
    AtomReads(a, regs);
  }

  /** The expressions match no line break: such a text is a symbol, unless the register table has it. */
  lemma {:induction false} LineBreakReads(s: string, regs: Registers)
    requires ('\n' in s || '\r' in s) && s !in regs
    ensures Parse(s, regs, NO_FUNCTIONS) == Symbol(s)
  {
    ParseByShape(s, regs, NO_FUNCTIONS);
    LineBreakNoNumber(s);
    LineBreakNoDereference(s);
  }

  lemma LineBreakNoNumber(s: string)
    requires '\n' in s || '\r' in s
    ensures !IsHexNumber(s)
  {
    var i :| 0 <= i < |s| && (s[i] == '\n' || s[i] == '\r');
    assert !HexDigit(s[i]);
  }

  lemma LineBreakNoDereference(s: string)
    requires '\n' in s || '\r' in s
    ensures MatchDereference(s).None?
  {
    DereferenceMatches(s);
    var m := MatchDereference(s);
    if m.Some? {
      DereferenceNoBreak(m.value.size, m.value.segment, m.value.inner);
    }
  }

  lemma DereferenceNoBreak(z: Size, segment: string, inner: string)
    requires IsSegment(segment) && !HasNewline(inner)
    ensures '\n' !in DereferenceText(z, segment, inner) && '\r' !in DereferenceText(z, segment, inner)
  {
    assert '\n' !in SizeName(z) && '\r' !in SizeName(z);
    NoBreak(SizeName(z) + " PTR ", segment, inner);
  }

  lemma NoBreak(keyword: string, segment: string, inner: string)
    requires '\n' !in keyword && '\r' !in keyword && IsSegment(segment) && !HasNewline(inner)
    ensures '\n' !in keyword + segment + "[" + inner + "]" && '\r' !in keyword + segment + "[" + inner + "]"
  {
    assert '\n' !in segment && '\r' !in segment by {
      assert forall i :: 0 <= i < |segment| ==> WordChar(segment[i]) || segment[i] == ':';
    }
  }

  /** Each of the three operators between two atoms is read as an operation on their leaves. */
  lemma {:induction false} OperatorsRead(a: string, op: char, b: string, regs: Registers)
    requires PlainKeys(regs) && AtomText(a) && AtomText(b) && (op == '*' || op == '+' || op == '-')
    ensures Parse(a + [op] + b, regs, NO_FUNCTIONS)
         == Binary(Parse(a, regs, NO_FUNCTIONS), op, Parse(b, regs, NO_FUNCTIONS))
  {
    AtomReads(a, regs);
    AtomReads(b, regs);
    var n := Binary(LeafOf(a, regs), op, LeafOf(b, regs));
    assert Operators(n.lhs, regs) && Operators(n.rhs, regs);
    ParseFlattenOperators(n, regs);
  }

  lemma AtomReads(a: string, regs: Registers)
    requires AtomText(a)
    ensures Flatten(LeafOf(a, regs)) == a && !LeafOf(a, regs).Binary? && !LeafOf(a, regs).Dereference?
    ensures Parse(a, regs, NO_FUNCTIONS) == LeafOf(a, regs)
  {
    ParseByShape(a, regs, NO_FUNCTIONS);
    DereferenceHasBracket(a);
  }

  /** The operand `SIZE PTR [base-offset]`. */
  lemma {:induction false} OffsetAddress(size: Size, base: string, offset: string, regs: Registers)
    requires PlainKeys(regs) && size != BIT && base in regs && offset !in regs && IsHexNumber(offset)
    ensures Parse(DereferenceText(size, "", base + "-" + offset), regs, NO_FUNCTIONS)
         == Dereference(size, Binary(Register(base, regs[base]), '-', Immidiate(offset)))
  {
    var n := Binary(Register(base, regs[base]), '-', Immidiate(offset));
    HexIsAtom(offset);
    assert Flatten(n) == base + "-" + offset;
    assert Operators(n.lhs, regs) && Operators(n.rhs, regs);
    assert TightAdditive(n.lhs) && TightAdditive(n.rhs) && !HasMul(n.lhs);
    ParseFlatten(Dereference(size, n), regs);
  }

  // ----- a segment is lost -----

  lemma SegmentedShape(size: Size, segment: string, inner: string, regs: Registers)
    requires PlainKeys(regs) && size != BIT && IsSegment(segment) && !HasNewline(inner)
    ensures ShapeOf(DereferenceText(size, segment, inner), regs) == Dereferencing(size, segment, inner)
  {
    var s := DereferenceText(size, segment, inner);
    var prefix := SizeName(size) + " PTR " + segment;
    assert s[|prefix|] == '[';
    NotAtomic(s, |prefix|, regs);
    DereferenceUnique(s, size, segment, inner);
  }

  lemma SegmentDropped(size: Size, segment: string, key: string, regs: Registers)
    requires PlainKeys(regs) && size != BIT && IsSegment(segment) && key in regs
    ensures Flatten(Parse(DereferenceText(size, segment, key), regs, NO_FUNCTIONS)) == DereferenceText(size, "", key)
  {
    SegmentedShape(size, segment, key, regs);
    ParseByShape(DereferenceText(size, segment, key), regs, NO_FUNCTIONS);
    ParseByShape(key, regs, NO_FUNCTIONS);
  }

  /** `DWORD PTR fs:[eax]` and `DWORD PTR [eax]` are read as the same operand. */
  lemma {:induction false} SegmentLost(regs: Registers)
    requires PlainKeys(regs) && "eax" in regs
    ensures Flatten(Parse("DWORD PTR fs:[eax]", regs, NO_FUNCTIONS)) == "DWORD PTR [eax]"
  {
    assert "DWORD PTR fs:[eax]" == DereferenceText(DWORD, "fs:", "eax");
    assert "DWORD PTR [eax]" == DereferenceText(DWORD, "", "eax");
    SegmentDropped(DWORD, "fs:", "eax", regs);
  }

  // ----- names of parsed operands -----

  predicate ParenFreeKeys(regs: Registers) {
    forall key :: key in regs ==> ParenFree(key)
  }

  lemma OperationParenFree(lhs: string, op: char, rhs: string)
    requires ParenFree(lhs + [op] + rhs)
    ensures ParenFree(lhs) && ParenFree(rhs)
  {
    var s := lhs + [op] + rhs;
    assert forall i :: 0 <= i < |lhs| ==> lhs[i] == s[i];
    assert forall i :: 0 <= i < |rhs| ==> rhs[i] == s[|lhs| + 1 + i];
  }

  lemma InnerParenFree(prefix: string, inner: string)
    requires ParenFree(prefix + inner + "]")
    ensures ParenFree(inner)
  {
    var s := prefix + inner + "]";
    assert forall i :: 0 <= i < |inner| ==> inner[i] == s[|prefix| + i];
  }

  lemma DereferenceParenFree(z: Size, segment: string, inner: string)
    requires ParenFree(DereferenceText(z, segment, inner))
    ensures ParenFree(inner)
  {
    InnerParenFree(SizeName(z) + " PTR " + segment + "[", inner);
  }

  lemma {:induction false} PartsParenFree(s: string, regs: Registers)
    requires ParenFree(s)
    ensures var shape := ShapeOf(s, regs);
      && (shape.Dereferencing? ==> ParenFree(shape.inner))
      && (shape.Operation? ==> ParenFree(shape.lhs) && ParenFree(shape.rhs))
  {
    match ShapeOf(s, regs)
    case Atomic =>
    case Dereferencing(size, segment, inner) =>
      DereferenceMatches(s);
      DereferenceParenFree(size, segment, inner);
    case Operation(lhs, op, rhs) => OperationParenFree(lhs, op, rhs);
  }

  lemma {:induction false} ParsePrintable(s: string, regs: Registers)
    requires ParenFree(s) && ParenFreeKeys(regs)
    ensures Printable(Parse(s, regs, NO_FUNCTIONS))
    ensures s != "" ==> Name(Parse(s, regs, NO_FUNCTIONS)) != ""
    decreases |s|
  {
    ParseByShape(s, regs, NO_FUNCTIONS);
    PartsParenFree(s, regs);
    match ShapeOf(s, regs)
    case Atomic =>
    case Dereferencing(size, segment, inner) => ParsePrintable(inner, regs);
    case Operation(lhs, op, rhs) =>
      ParsePrintable(lhs, regs);
      ParsePrintable(rhs, regs);
  }

  lemma {:induction false} FlattenEraseKinds(n: Node)
    ensures Flatten(EraseKinds(n)) == Flatten(n)
  {
    match n
    case Binary(lhs, op, rhs) =>
      FlattenEraseKinds(lhs);
      FlattenEraseKinds(rhs);
    case Dereference(_, operand) => FlattenEraseKinds(operand);
    case _ =>
  }

  /** Two operand texts without parentheses and segments print to the same name only if they are the same text. */
  lemma {:induction false} NamesIdentifyOperands(s: string, t: string, regs: Registers)
    requires ParenFreeKeys(regs) && ParenFree(s) && ParenFree(t) && ':' !in s && ':' !in t
    requires Name(Parse(s, regs, NO_FUNCTIONS)) == Name(Parse(t, regs, NO_FUNCTIONS))
    ensures s == t
  {
    var n, m := Parse(s, regs, NO_FUNCTIONS), Parse(t, regs, NO_FUNCTIONS);
    ParsePrintable(s, regs);
    ParsePrintable(t, regs);
    PrinterInjective(n, m);
    FlattenEraseKinds(n);
    FlattenEraseKinds(m);
    FlattenParseNoColon(s, regs);
    FlattenParseNoColon(t, regs);
  }
}
