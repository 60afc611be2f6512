/** The LLVM-like instructions the factories emit, and what they compute. */
module Ir {
  import opened Wrappers
  import opened Nodes

  /**
   A symbol an instruction refers to: one parsed or found in the symbol table, a symbol object
   the factory made for this one instruction, or the null pointer of a failed search.
   */
  datatype Value = Null | Shared(node: Node) | Local(name: string)

  datatype CompareType = GT | GE | LT | LE | EQ | NE

  /** The operators the factories use, by their names in the emitted text. */
  datatype Operator = AND | OR | MSB | BitwiseXNOR

  datatype Instruction =
    | Cmp(target: Value, lhs: Value, compare: CompareType, rhs: Value)
    | BinaryOperation(target: Value, lhs: Value, operator: Operator, rhs: Value)
    | UnaryInstruction(target: Value, operator: Operator, operand: Value)
    | Branch(condition: Value, destination: Value)

  function Definitions(i: Instruction): set<Value> {
    if i.Branch? then {} else {i.target}
  }

  function UsedSymbols(i: Instruction): set<Value> {
    match i
    case Cmp(_, lhs, _, rhs) => {lhs, rhs}
    case BinaryOperation(_, lhs, _, rhs) => {lhs, rhs}
    case UnaryInstruction(_, _, operand) => {operand}
    case Branch(condition, destination) => {condition, destination}
  }

  // ----- interpreter -----

  /** A 64-bit word, by its unsigned value. */
  type Word = Address

  /** What `icmp lt` and the bitwise operators mean is left to the machine. */
  datatype Machine = Machine(
    lt: (Word, Word) -> bool, and: (Word, Word) -> Word, or: (Word, Word) -> Word,
    msb: Word -> Word, xnor: Word -> Word)

  /** AND and OR of a machine agree with the connectives on single bits. */
  ghost predicate Bitwise(m: Machine) {
    forall a, b :: m.and(Bit(a), Bit(b)) == Bit(a && b) && m.or(Bit(a), Bit(b)) == Bit(a || b)
  }

  /** What the instructions have written so far. */
  type Store = map<Value, Word>

  /** The registers, memory and constants as an instruction finds them. */
  type Valuation = Value -> Word

  datatype Event = Event(taken: bool, destination: Value)

  function Read(v: Value, store: Store, operands: Valuation): Word {
    if v in store then store[v] else operands(v)
  }

  function Bit(b: bool): Word {
    if b then 1 else 0
  }

  function Compare(m: Machine, compare: CompareType, a: Word, b: Word): bool {
    match compare
    case GT => m.lt(b, a)
    case GE => !m.lt(a, b)
    case LT => m.lt(a, b)
    case LE => !m.lt(b, a)
    case EQ => a == b
    case NE => a != b
  }

  function Execute(i: Instruction, m: Machine, operands: Valuation, store: Store): Store {
    match i
    case Cmp(target, lhs, compare, rhs) =>
      store[target := Bit(Compare(m, compare, Read(lhs, store, operands), Read(rhs, store, operands)))]
    case BinaryOperation(target, lhs, operator, rhs) =>
      var a, b := Read(lhs, store, operands), Read(rhs, store, operands);
      store[target := if operator.AND? then m.and(a, b) else m.or(a, b)]
    case UnaryInstruction(target, operator, operand) =>
      var a := Read(operand, store, operands);
      store[target := if operator.MSB? then m.msb(a) else m.xnor(a)]
    case Branch(_, _) => store
  }

  function EventOf(i: Instruction, store: Store, operands: Valuation): seq<Event> {
    if i.Branch? then [Event(Read(i.condition, store, operands) != 0, i.destination)] else []
  }

  /** Runs a group of instructions; the result is the store and the branch decisions in order. */
  function Run(group: seq<Instruction>, m: Machine, operands: Valuation, store: Store): (Store, seq<Event>) {
    if group == [] then (store, [])
    else
      var (last, events) := Run(group[1..], m, operands, Execute(group[0], m, operands, store));
      (last, EventOf(group[0], store, operands) + events)
  }

  ghost predicate StrictTotalOrder(lt: (Word, Word) -> bool) {
    && (forall a :: !lt(a, a))
    && (forall a, b :: a != b ==> lt(a, b) || lt(b, a))
    && (forall a, b, c :: lt(a, b) && lt(b, c) ==> lt(a, c))
  }

  /** Under a strict total order exactly one of less, equal and greater holds, and the others follow. */
  lemma {:induction false} ComparisonsFit(m: Machine, a: Word, b: Word)
    requires StrictTotalOrder(m.lt)
    ensures Compare(m, LT, a, b) == m.lt(a, b) && Compare(m, EQ, a, b) == (a == b)
    ensures !(Compare(m, LT, a, b) && Compare(m, EQ, a, b)) && !(Compare(m, EQ, a, b) && Compare(m, GT, a, b))
    ensures !(Compare(m, LT, a, b) && Compare(m, GT, a, b))
    ensures Compare(m, LE, a, b) == (Compare(m, LT, a, b) || Compare(m, EQ, a, b))
    ensures Compare(m, GE, a, b) == (Compare(m, GT, a, b) || Compare(m, EQ, a, b))
    ensures Compare(m, NE, a, b) == (Compare(m, LT, a, b) || Compare(m, GT, a, b))
  {
  }

  /** An instruction writes what it defines and nothing else. */
  lemma {:induction false} ExecuteWrites(i: Instruction, m: Machine, operands: Valuation, store: Store, v: Value)
    ensures v !in Definitions(i) ==>
      (v in Execute(i, m, operands, store) <==> v in store)
      && (v in store ==> Execute(i, m, operands, store)[v] == store[v])
    ensures v in Definitions(i) ==> v in Execute(i, m, operands, store)
  {
  }

  /** What it writes and where it branches depends on what it uses and nothing else. */
  lemma {:induction false} ExecuteReads(i: Instruction, m: Machine, operands: Valuation, store: Store,
                                        operands': Valuation, store': Store)
    requires forall v :: v in UsedSymbols(i) ==> Read(v, store, operands) == Read(v, store', operands')
    ensures forall v :: v in Definitions(i) ==>
      Execute(i, m, operands, store)[v] == Execute(i, m, operands', store')[v]
    ensures EventOf(i, store, operands) == EventOf(i, store', operands')
  {
  }
}
